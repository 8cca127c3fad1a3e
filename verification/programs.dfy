/** Whole programs from the executor's tests: `Math.max(a, b)` and the
    recursive `Factorial.fac(n)` driven by a `<main>` method, run to
    completion by `Executor.Run`. */
module Programs {
  import opened Results
  import opened Values
  import opened Instructions
  import Int32
  import CallStacks
  import Objects
  import ConstantPools
  import opened Executor
  import opened ExecutorProperties

  function Fac(n: nat): nat {
    if n == 0 then 1 else n * Fac(n - 1)
  }

  lemma {:induction false} FacPositive(n: nat)
    ensures Fac(n) >= 1
    ensures n >= 1 ==> Fac(n) >= n
  {
    if n > 0 {
      FacPositive(n - 1);
    }
  }

  /** The factorials up to 12! fit a signed 32-bit integer; 13! does not. */
  lemma {:induction false} FacFits(n: nat)
    requires n <= 12
    ensures Fac(n) <= Fac(12) == 479001600 <= Int32.MAX
    ensures Fac(13) == 6227020800 > Int32.MAX
  {
    assert Fac(4) == 24;
    assert Fac(8) == 40320;
    assert Fac(12) == 479001600;
    FacGrows(n, 12);
  }

  lemma {:induction false} FacGrows(a: nat, b: nat)
    requires a <= b
    ensures Fac(a) <= Fac(b)
    decreases b - a
  {
    if a < b {
      FacGrows(a + 1, b);
      FacPositive(a);
    }
  }

  // ---------------------------------------------------------------------
  // The code and pool entries the test programs rely on

  /** `Factorial.fac(receiver, n)` at addresses 30..42: `1` when `n <= 1`,
      otherwise `n * receiver.fac(n - 1)`. */
  predicate FacCode(code: seq<Instruction>) {
    && |code| > 42
    && code[30] == Instruction(PUSH_VAR, 1)
    && code[31] == Instruction(PUSH, 1)
    && code[32] == Instruction(JUMP_GT, 35)
    && code[33] == Instruction(PUSH, 1)
    && code[34] == Instruction(RETURN, 0)
    && code[35] == Instruction(PUSH_VAR, 1)
    && code[36] == Instruction(PUSH_VAR, 0)
    && code[37] == Instruction(PUSH_VAR, 1)
    && code[38] == Instruction(PUSH, 1)
    && code[39] == Instruction(SUB, 0)
    && code[40] == Instruction(CALL, 9)
    && code[41] == Instruction(MUL, 0)
    && code[42] == Instruction(RETURN, 0)
  }

  /** `Math.max(receiver, a, b)` at addresses 30..36. */
  predicate MaxCode(code: seq<Instruction>) {
    && |code| > 36
    && code[30] == Instruction(PUSH_VAR, 1)
    && code[31] == Instruction(PUSH_VAR, 2)
    && code[32] == Instruction(JUMP_GT, 35)
    && code[33] == Instruction(PUSH_VAR, 2)
    && code[34] == Instruction(RETURN, 0)
    && code[35] == Instruction(PUSH_VAR, 1)
    && code[36] == Instruction(RETURN, 0)
  }

  /** Pool index `i` holds a method at `address` taking `args` arguments
      and `locals` further vars. */
  predicate MethodEntry(p: ConstantPools.Pool, i: nat, address: nat, args: nat, locals: nat) {
    && ConstantPools.Get(p, i).Ok?
    && ConstantPools.Get(p, i).value.Method?
    && ConstantPools.Get(p, i).value.address == address
    && ConstantPools.Get(p, i).value.args == args
    && ConstantPools.Get(p, i).value.locals == locals
  }

  /** The number of steps `fac(k)` takes from its first instruction up to
      and including its RETURN. */
  function FacSteps(k: nat): nat {
    if k <= 1 then 5 else 11 + FacSteps(k - 1)
  }

  /** `m` is about to run the instruction at `pc` with operand stack
      `ops`, call stack `frames` and heap `heap`. */
  predicate Shape(m: Machine, ops: seq<Value>, frames: seq<CallStacks.Frame>, pc: nat, heap: Objects.Heap) {
    m.operands.elems == ops && m.frames.elems == frames && m.pc == pc && m.heap == heap
  }

  /** Running `n` steps from `m` reaches a machine of that shape, still
      running, with the heap unchanged. */
  predicate Reaches(m: Machine, n: nat, ops: seq<Value>, frames: seq<CallStacks.Frame>, pc: nat)
    requires Objects.Valid(m.heap)
  {
    && Run(m, n).Ok?
    && Run(m, n).value.running
    && Shape(Run(m, n).value.machine, ops, frames, pc, m.heap)
  }

  /** Running `n` steps from `m`, at the start of a method whose frame sits
      on top of the caller frames `fs`, returns `v` from it: `v` is pushed
      on the operand stack `m` had, the frame is gone, control is back at
      `ret`, the heap is as it was, and the program ends iff `fs` is
      empty. */
  predicate Returns(m: Machine, n: nat, v: Value, fs: seq<CallStacks.Frame>, ret: nat)
    requires Objects.Valid(m.heap)
  {
    && Run(m, n).Ok?
    && Shape(Run(m, n).value.machine, m.operands.elems + [v], fs, ret, m.heap)
    && (Run(m, n).value.running <==> |fs| > 0)
  }

  /** The frame of `fac` called on `receiver` and `k`. */
  function FacFrame(receiver: Value, k: int, ret: nat): CallStacks.Frame {
    CallStacks.Frame([receiver, Int(k)], ret)
  }

  // ---------------------------------------------------------------------
  // `fac`, phase by phase

  /** `fac` tests `n > 1` (PUSH_VAR 1; PUSH 1; JUMP_GT 35). */
  lemma {:induction false} FacTest(m: Machine, fs: seq<CallStacks.Frame>, receiver: Value, k: nat, ret: nat)
    requires Objects.Valid(m.heap) && FacCode(m.code) && m.pc == 30
    requires m.frames.elems == fs + [FacFrame(receiver, k, ret)]
    ensures Reaches(m, 3, m.operands.elems, m.frames.elems, if k > 1 then 35 else 33)
  {
    var s := m.operands.elems;
    StepPushVar(m, 1);
    var m1 := Step(m).value.machine;
    StepPush(m1, 1);
    var m2 := Step(m1).value.machine;
    assert m2.operands.elems == s + [Int(k), Int(1)];
    StepBranch(m2, JUMP_GT, 35);
    var m3 := Step(m2).value.machine;
    assert m3.operands.elems == s;
    RunStep(m, 2);
    RunStep(m1, 1);
    RunStep(m2, 0);
  }

  /** `n <= 1`: PUSH 1; RETURN. */
  lemma {:induction false} FacBase(m: Machine, fs: seq<CallStacks.Frame>, receiver: Value, k: nat, ret: nat)
    requires Objects.Valid(m.heap) && FacCode(m.code) && m.pc == 33
    requires m.frames.elems == fs + [FacFrame(receiver, k, ret)]
    ensures Returns(m, 2, Int(1), fs, ret)
  {
    StepPush(m, 1);
    var m1 := Step(m).value.machine;
    StepReturn(m1, 0);
    assert m1.frames.elems[..|fs|] == fs;
    RunStep(m, 1);
  }

  /** `n > 1`: PUSH_VAR 1; PUSH_VAR 0; PUSH_VAR 1 load `n`, the receiver
      and `n` again. */
  lemma {:induction false} FacLoad(m: Machine, fs: seq<CallStacks.Frame>, receiver: Value, k: nat, ret: nat)
    requires Objects.Valid(m.heap) && FacCode(m.code) && m.pc == 35
    requires m.frames.elems == fs + [FacFrame(receiver, k, ret)]
    ensures Reaches(m, 3, m.operands.elems + [Int(k), receiver, Int(k)], m.frames.elems, 38)
  {
    StepPushVar(m, 1);
    var m1 := Step(m).value.machine;
    StepPushVar(m1, 0);
    var m2 := Step(m1).value.machine;
    StepPushVar(m2, 1);
    RunStep(m, 2);
    RunStep(m1, 1);
    RunStep(m2, 0);
  }

  /** PUSH 1; SUB turn the top `n` into `n - 1`. */
  lemma {:induction false} FacDecrement(m: Machine, s: seq<Value>, k: int)
    requires Objects.Valid(m.heap) && FacCode(m.code) && m.pc == 38
    requires m.operands.elems == s + [Int(k)] && 1 <= k <= 12
    ensures Reaches(m, 2, s + [Int(k - 1)], m.frames.elems, 40)
  {
    StepPush(m, 1);
    var m1 := Step(m).value.machine;
    assert m1.operands.elems == s + [Int(k), Int(1)];
    StepArith(m1, SUB, 0);
    RunStep(m, 1);
    RunStep(m1, 0);
  }

  /** CALL 9 enters `fac` with the receiver and `n - 1` as its vars. */
  lemma {:induction false} FacRecurse(m: Machine, s: seq<Value>, receiver: Value, k: int)
    requires Objects.Valid(m.heap) && FacCode(m.code) && MethodEntry(m.pool, 9, 30, 2, 0) && m.pc == 40
    requires m.operands.elems == s + [receiver, Int(k)]
    ensures Reaches(m, 1, s, m.frames.elems + [FacFrame(receiver, k, 41)], 30)
  {
    StepCall(m, 9);
    var t := s + [receiver, Int(k)];
    assert t[..|t| - 2] == s;
    assert t[|t| - 2..] + Zeros(0) == [receiver, Int(k)];
    RunStep(m, 0);
  }

  /** Loading `n`, the receiver and `n` and decrementing the last. */
  lemma {:induction false} FacPrepare(m: Machine, fs: seq<CallStacks.Frame>, receiver: Value, k: nat, ret: nat)
    requires Objects.Valid(m.heap) && FacCode(m.code) && m.pc == 35
    requires m.frames.elems == fs + [FacFrame(receiver, k, ret)]
    requires 1 <= k <= 12
    ensures Reaches(m, 5, m.operands.elems + [Int(k), receiver, Int(k - 1)], m.frames.elems, 40)
  {
    var s := m.operands.elems;
    FacLoad(m, fs, receiver, k, ret);
    var m3 := Run(m, 3).value.machine;
    RunKeeps(m, 3);
    assert s + [Int(k), receiver, Int(k)] == (s + [Int(k), receiver]) + [Int(k)];
    FacDecrement(m3, s + [Int(k), receiver], k);
    assert (s + [Int(k), receiver]) + [Int(k - 1)] == s + [Int(k), receiver, Int(k - 1)];
    RunSplit(m, 3, 2);
  }

  /** Two runs, each reaching a running machine of a given shape, compose. */
  lemma ReachesThen(m: Machine, a: nat, ops: seq<Value>, frames: seq<CallStacks.Frame>, pc: nat,
                    b: nat, ops': seq<Value>, frames': seq<CallStacks.Frame>, pc': nat)
    requires Objects.Valid(m.heap) && Reaches(m, a, ops, frames, pc)
    requires Reaches(Run(m, a).value.machine, b, ops', frames', pc')
    ensures Reaches(m, a + b, ops', frames', pc')
  {
    RunSplit(m, a, b);
  }

  /** The three parts of the descent, composed. */
  lemma {:induction false} FacDescend(m: Machine, fs: seq<CallStacks.Frame>, receiver: Value, k: nat, ret: nat)
    requires Objects.Valid(m.heap) && FacCode(m.code) && MethodEntry(m.pool, 9, 30, 2, 0) && m.pc == 35
    requires m.frames.elems == fs + [FacFrame(receiver, k, ret)]
    requires 1 <= k <= 12
    ensures Reaches(m, 6, m.operands.elems + [Int(k)], m.frames.elems + [FacFrame(receiver, k - 1, 41)], 30)
  {
    var s := m.operands.elems;
    FacPrepare(m, fs, receiver, k, ret);
    RunKeeps(m, 5);
    FacPrepared(Run(m, 5).value.machine, s, receiver, k);
    ReachesThen(m, 5, s + [Int(k), receiver, Int(k - 1)], m.frames.elems, 40,
                1, s + [Int(k)], m.frames.elems + [FacFrame(receiver, k - 1, 41)], 30);
  }

  /** After the preparation, CALL 9 enters `fac(receiver, n - 1)`. */
  lemma {:induction false} FacPrepared(m: Machine, s: seq<Value>, receiver: Value, k: int)
    requires Objects.Valid(m.heap) && FacCode(m.code) && MethodEntry(m.pool, 9, 30, 2, 0) && m.pc == 40
    requires m.operands.elems == s + [Int(k), receiver, Int(k - 1)]
    ensures Reaches(m, 1, s + [Int(k)], m.frames.elems + [FacFrame(receiver, k - 1, 41)], 30)
  {
    assert m.operands.elems == (s + [Int(k)]) + [receiver, Int(k - 1)];
    FacRecurse(m, s + [Int(k)], receiver, k - 1);
  }

  /** For `n > 1`, the first nine instructions of `fac` test `n`, keep
      `n` for the multiplication and enter `fac(receiver, n - 1)`. */
  lemma {:induction false} FacEnter(m: Machine, fs: seq<CallStacks.Frame>, receiver: Value, k: nat, ret: nat)
    requires Objects.Valid(m.heap) && FacCode(m.code) && MethodEntry(m.pool, 9, 30, 2, 0)
    requires m.pc == 30 && 1 < k <= 12
    requires m.frames.elems == fs + [FacFrame(receiver, k, ret)]
    ensures Reaches(m, 9, m.operands.elems + [Int(k)], m.frames.elems + [FacFrame(receiver, k - 1, 41)], 30)
  {
    FacTest(m, fs, receiver, k, ret);
    var m3 := Run(m, 3).value.machine;
    RunKeeps(m, 3);
    FacDescend(m3, fs, receiver, k, ret);
    RunSplit(m, 3, 6);
  }

  /** After the recursive call: MUL; RETURN. */
  lemma {:induction false} FacAscend(m: Machine, s: seq<Value>, fs: seq<CallStacks.Frame>, top: CallStacks.Frame, k: nat, f: nat)
    requires Objects.Valid(m.heap) && FacCode(m.code) && m.pc == 41
    requires m.operands.elems == s + [Int(k), Int(f)] && m.frames.elems == fs + [top]
    requires k * f <= Int32.MAX
    ensures Run(m, 2).Ok?
    ensures Shape(Run(m, 2).value.machine, s + [Int(k * f)], fs, top.returnAddress, m.heap)
    ensures Run(m, 2).value.running <==> |fs| > 0
  {
    StepArith(m, MUL, 0);
    var m1 := Step(m).value.machine;
    assert m1.operands.elems == s + [Int(k * f)];
    StepReturn(m1, 0);
    assert m1.frames.elems[..|fs|] == fs;
    RunStep(m, 1);
  }

  // ---------------------------------------------------------------------
  // `fac`, whole calls

  /** A call of `fac` on `k <= 12` (so that `k!` fits a signed 32-bit
      integer) returns `k!` to its caller after `FacSteps(k)` steps. */
  lemma {:induction false} FacCall(m: Machine, fs: seq<CallStacks.Frame>, receiver: Value, k: nat, ret: nat)
    requires Objects.Valid(m.heap) && FacCode(m.code) && MethodEntry(m.pool, 9, 30, 2, 0)
    requires m.pc == 30 && k <= 12
    requires m.frames.elems == fs + [FacFrame(receiver, k, ret)]
    ensures Returns(m, FacSteps(k), Int(Fac(k)), fs, ret)
    decreases k, 2
  {
    if k <= 1 {
      FacCallBase(m, fs, receiver, k, ret);
    } else {
      FacCallStep(m, fs, receiver, k, ret);
    }
  }

  lemma {:induction false} FacCallBase(m: Machine, fs: seq<CallStacks.Frame>, receiver: Value, k: nat, ret: nat)
    requires Objects.Valid(m.heap) && FacCode(m.code) && m.pc == 30 && k <= 1
    requires m.frames.elems == fs + [FacFrame(receiver, k, ret)]
    ensures Returns(m, FacSteps(k), Int(Fac(k)), fs, ret)
  {
    FacTest(m, fs, receiver, k, ret);
    var m3 := Run(m, 3).value.machine;
    RunKeeps(m, 3);
    FacBase(m3, fs, receiver, k, ret);
    RunSplit(m, 3, 2);
    assert FacSteps(k) == 5;
    assert Fac(k) == 1 by {
      if k == 1 {
        assert Fac(1) == 1 * Fac(0);
      }
    }
  }

  /** For `n > 1`, entering `fac(receiver, n - 1)` and returning from it
      leaves `n` and `(n - 1)!` on the stack, ready for the MUL at 41. */
  lemma {:induction false} FacInner(m: Machine, fs: seq<CallStacks.Frame>, receiver: Value, k: nat, ret: nat)
    requires Objects.Valid(m.heap) && FacCode(m.code) && MethodEntry(m.pool, 9, 30, 2, 0)
    requires m.pc == 30 && 1 < k <= 12
    requires m.frames.elems == fs + [FacFrame(receiver, k, ret)]
    ensures Reaches(m, 9 + FacSteps(k - 1), m.operands.elems + [Int(k), Int(Fac(k - 1))], m.frames.elems, 41)
    ensures Run(m, 9 + FacSteps(k - 1)).Ok? ==> FacCode(Run(m, 9 + FacSteps(k - 1)).value.machine.code)
    decreases k, 0
  {
    var s := m.operands.elems;
    FacEnter(m, fs, receiver, k, ret);
    var m9 := Run(m, 9).value.machine;
    RunKeeps(m, 9);
    var r := FacSteps(k - 1);
    FacCall(m9, m.frames.elems, receiver, k - 1, 41);
    assert (s + [Int(k)]) + [Int(Fac(k - 1))] == s + [Int(k), Int(Fac(k - 1))];
    RunKeeps(m9, r);
    RunSplit(m, 9, r);
  }

  lemma {:induction false} FacCallStep(m: Machine, fs: seq<CallStacks.Frame>, receiver: Value, k: nat, ret: nat)
    requires Objects.Valid(m.heap) && FacCode(m.code) && MethodEntry(m.pool, 9, 30, 2, 0)
    requires m.pc == 30 && 1 < k <= 12
    requires m.frames.elems == fs + [FacFrame(receiver, k, ret)]
    ensures Returns(m, FacSteps(k), Int(Fac(k)), fs, ret)
    decreases k, 1
  {
    var a := 9 + FacSteps(k - 1);
    FacInner(m, fs, receiver, k, ret);
    var m' := Run(m, a).value.machine;
    FacFits(k);
    assert Fac(k) == k * Fac(k - 1);
    FacAscend(m', m.operands.elems, fs, FacFrame(receiver, k, ret), k, Fac(k - 1));
    RunSplit(m, a, 2);
    assert FacSteps(k) == a + 2;
    assert Run(m, FacSteps(k)) == Run(m', 2);
  }

  // ---------------------------------------------------------------------
  // `Math.max`

  /** `max` compares `a > b` (PUSH_VAR 1; PUSH_VAR 2; JUMP_GT 35). */
  lemma {:induction false} MaxTest(m: Machine, fs: seq<CallStacks.Frame>, receiver: Value, a: int, b: int, ret: nat)
    requires Objects.Valid(m.heap) && MaxCode(m.code) && m.pc == 30
    requires m.frames.elems == fs + [CallStacks.Frame([receiver, Int(a), Int(b)], ret)]
    ensures Reaches(m, 3, m.operands.elems, m.frames.elems, if a > b then 35 else 33)
  {
    var s := m.operands.elems;
    StepPushVar(m, 1);
    var m1 := Step(m).value.machine;
    StepPushVar(m1, 2);
    var m2 := Step(m1).value.machine;
    assert m2.operands.elems == s + [Int(a), Int(b)];
    StepBranch(m2, JUMP_GT, 35);
    var m3 := Step(m2).value.machine;
    assert m3.operands.elems == s;
    RunStep(m, 2);
    RunStep(m1, 1);
    RunStep(m2, 0);
  }

  /** Either arm: PUSH_VAR of the larger value; RETURN. */
  lemma {:induction false} MaxPick(m: Machine, fs: seq<CallStacks.Frame>, receiver: Value, a: int, b: int, ret: nat)
    requires Objects.Valid(m.heap) && MaxCode(m.code) && (m.pc == 33 || m.pc == 35)
    requires m.frames.elems == fs + [CallStacks.Frame([receiver, Int(a), Int(b)], ret)]
    ensures Returns(m, 2, Int(if m.pc == 35 then a else b), fs, ret)
  {
    StepPushVar(m, if m.pc == 35 then 1 else 2);
    var m1 := Step(m).value.machine;
    StepReturn(m1, 0);
    assert m1.frames.elems[..|fs|] == fs;
    RunStep(m, 1);
  }

  /** A call of `max` returns the larger of its two arguments after five
      steps. */
  lemma {:induction false} MaxCall(m: Machine, fs: seq<CallStacks.Frame>, receiver: Value, a: int, b: int, ret: nat)
    requires Objects.Valid(m.heap) && MaxCode(m.code) && m.pc == 30
    requires m.frames.elems == fs + [CallStacks.Frame([receiver, Int(a), Int(b)], ret)]
    ensures Returns(m, 5, Int(if a > b then a else b), fs, ret)
  {
    MaxTest(m, fs, receiver, a, b, ret);
    var m3 := Run(m, 3).value.machine;
    RunKeeps(m, 3);
    MaxPick(m3, fs, receiver, a, b, ret);
    RunSplit(m, 3, 2);
  }

  // ---------------------------------------------------------------------
  // The test programs, from an empty machine

  /** The pool of the executor tests: `<main>` at 1 (one local), class
      `MyClass` and its three fields, class `Math` with `max(receiver, a,
      b)` at 7, class `Factorial` with `fac(receiver, n)` at 9; both
      methods start at address 30. */
  const TestPool: ConstantPools.Pool := ConstantPools.Pool([
    Some(ConstantPools.Method("<main>", 0, 1, 0, 1)),
    Some(ConstantPools.Class("MyClass", 0, 3, 0, None)),
    Some(ConstantPools.Field("x", 2, 0)),
    Some(ConstantPools.Field("y", 2, 1)),
    Some(ConstantPools.Field("x", 2, 2)),
    Some(ConstantPools.Class("Math", 0, 0, 1, None)),
    Some(ConstantPools.Method("max", 6, 30, 3, 0)),
    Some(ConstantPools.Class("Factorial", 0, 0, 1, None)),
    Some(ConstantPools.Method("fac", 8, 30, 2, 0))])

  /** The frame of `<main>`, entered by the CALL 1 at address 0. */
  const MainFrame: CallStacks.Frame := CallStacks.Frame([Zero], 1)

  /** Address 0 calls `<main>`, which creates a `Factorial`, pushes `x`,
      calls `fac` and returns; `fac` is at 30. */
  predicate FacProgramCode(code: seq<Instruction>, x: Word) {
    && FacCode(code)
    && code[0] == Instruction(CALL, 1)
    && code[1] == Instruction(NEW, 8)
    && code[2] == Instruction(PUSH, x)
    && code[3] == Instruction(CALL, 9)
    && code[4] == Instruction(RETURN, 0)
  }

  /** NEW at the first instruction of `<main>` pushes a fresh object of
      class `c` as the receiver-to-be. */
  lemma MainNew(m: Machine, c: Word)
    requires Objects.Valid(m.heap) && m.pool == TestPool && At(m, NEW, c)
    requires c == 6 || c == 8
    requires m.operands.elems == [] && m.frames.elems == [MainFrame]
    ensures var r := Run(m, 1);
      && r.Ok? && r.value.running
      && var m' := r.value.machine;
      && m'.code == m.code && m'.pool == m.pool && Objects.Valid(m'.heap)
      && m'.pc == m.pc + 1 && |m'.operands.elems| == 1 && m'.frames.elems == [MainFrame]
  {
    StepNew(m, c);
    RunStep(m, 0);
  }

  /** `<main>` at address 2 of the factorial program: PUSH x; CALL 9
      enter `fac(receiver, x)`, returning to address 4. */
  lemma FacMainCall(m: Machine, x: Word)
    requires Objects.Valid(m.heap) && FacProgramCode(m.code, x) && x as nat <= 12 && m.pool == TestPool
    requires m.pc == 2 && |m.operands.elems| == 1 && m.frames.elems == [MainFrame]
    ensures var r := Run(m, 2);
      && r.Ok? && r.value.running
      && var m' := r.value.machine;
      && m'.code == m.code && m'.pool == m.pool && m'.heap == m.heap
      && m'.pc == 30 && m'.operands.elems == []
      && m'.frames.elems == [MainFrame, FacFrame(m.operands.elems[0], x as int, 4)]
  {
    var receiver := m.operands.elems[0];
    StepPush(m, x);
    var m1 := Step(m).value.machine;
    assert Int32.FromU32(x as nat) == x as int;
    var s := m1.operands.elems;
    assert s == [receiver, Int(x as int)];
    assert s[|s| - 2..] + Zeros(0) == s;
    assert MethodEntry(m1.pool, 9, 30, 2, 0);
    StepCall(m1, 9);
    RunStep(m, 1);
    RunStep(m1, 0);
  }

  /** A machine about to run a test program: at address 0, both stacks
      empty, the test pool loaded. */
  predicate Start(m: Machine) {
    && m.pc == 0 && m.operands.elems == [] && m.frames.elems == []
    && m.pool == TestPool && Objects.Valid(m.heap)
  }

  /** CALL 1 enters `<main>` with its one local. */
  lemma EnterMain(m: Machine)
    requires Start(m) && |m.code| > 0 && m.code[0] == Instruction(CALL, 1)
    ensures Reaches(m, 1, [], [MainFrame], 1)
    ensures Run(m, 1).Ok? ==> Run(m, 1).value.machine.code == m.code && Run(m, 1).value.machine.pool == m.pool
  {
    assert MethodEntry(m.pool, 1, 1, 0, 1);
    StepCall(m, 1);
    assert [] + Zeros(1) == [Zero];
    RunStep(m, 0);
  }

  /** The four steps before `fac` runs: the run is inside `fac(receiver,
      x)`, called from address 3 with nothing else on the operand stack. */
  lemma FacSetup(m: Machine, x: Word)
    requires Start(m) && FacProgramCode(m.code, x) && x as nat <= 12
    ensures var r := Run(m, 4);
      && r.Ok? && r.value.running
      && var m' := r.value.machine;
      && m'.code == m.code && m'.pool == TestPool && Objects.Valid(m'.heap)
      && m'.pc == 30 && m'.operands.elems == []
      && |m'.frames.elems| == 2 && |m'.frames.elems[1].vars| == 2
      && m'.frames.elems == [MainFrame, FacFrame(m'.frames.elems[1].vars[0], x as int, 4)]
  {
    EnterMain(m);
    var m1 := Run(m, 1).value.machine;
    MainNew(m1, 8);
    var m2 := Run(m1, 1).value.machine;
    FacMainCall(m2, x);
    RunSplit(m, 1, 1);
    RunSplit(m, 2, 2);
  }

  /** `n` steps from `m` end the program with `v` as the only value on the
      operand stack and no frame left. */
  predicate Halts(m: Machine, n: nat, v: Value) {
    var r := Run(m, n);
    && r.Ok? && !r.value.running
    && r.value.machine.operands.elems == [v]
    && r.value.machine.frames.elems == []
  }

  /** A run that reaches a running machine from which the program halts
      with `v` halts with `v` itself. */
  lemma HaltsAfter(m: Machine, a: nat, b: nat, v: Value)
    requires Run(m, a).Ok? && Run(m, a).value.running
    requires Halts(Run(m, a).value.machine, b, v)
    ensures Halts(m, a + b, v)
  {
    RunSplit(m, a, b);
  }

  /** The RETURN that ends `<main>` with `v` on the operand stack stops
      the program and leaves `v` as the only value. */
  lemma MainReturns(m: Machine, v: Value)
    requires Objects.Valid(m.heap) && At(m, RETURN, 0)
    requires m.operands.elems == [v] && m.frames.elems == [MainFrame]
    ensures var r := Run(m, 1);
      && r.Ok? && !r.value.running
      && r.value.machine.operands.elems == [v]
      && r.value.machine.frames.elems == []
  {
    StepReturn(m, 0);
    RunStops(m, 1);
    var fs := m.frames.elems;
    assert fs[..|fs| - 1] == [];
  }

  /** A method called by `<main>` with nothing on the operand stack that
      returns `v` to a RETURN at `ret`: one step later the program is over
      with `v` as the only value left. */
  lemma ReturnsToMain(m: Machine, n: nat, v: Value, ret: nat)
    requires Objects.Valid(m.heap) && m.operands.elems == []
    requires ret < |m.code| && m.code[ret] == Instruction(RETURN, 0)
    requires Returns(m, n, v, [MainFrame], ret)
    ensures Halts(m, n + 1, v)
  {
    RunKeeps(m, n);
    var m' := Run(m, n).value.machine;
    assert m'.operands.elems == [] + [v] == [v];
    assert At(m', RETURN, 0);
    MainReturns(m', v);
    RunSplit(m, n, 1);
    assert Run(m, n + 1) == Run(m', 1);
  }

  /** From inside `fac(receiver, k)` called by `<main>` at address 3,
      the program runs to its end with `k!` as the only value left. */
  lemma FacFinishes(m: Machine, receiver: Value, k: nat)
    requires Objects.Valid(m.heap) && FacCode(m.code) && MethodEntry(m.pool, 9, 30, 2, 0)
    requires |m.code| > 4 && m.code[4] == Instruction(RETURN, 0)
    requires m.pc == 30 && k <= 12 && m.operands.elems == []
    requires m.frames.elems == [MainFrame, FacFrame(receiver, k, 4)]
    ensures Halts(m, FacSteps(k) + 1, Int(Fac(k)))
  {
    FacFromMain(m, receiver, k);
    ReturnsToMain(m, FacSteps(k), Int(Fac(k)), 4);
  }

  /** `fac(receiver, k)` called by `<main>` returns `k!` to it. */
  lemma FacFromMain(m: Machine, receiver: Value, k: nat)
    requires Objects.Valid(m.heap) && FacCode(m.code) && MethodEntry(m.pool, 9, 30, 2, 0)
    requires m.pc == 30 && k <= 12
    requires m.frames.elems == [MainFrame, FacFrame(receiver, k, 4)]
    ensures Returns(m, FacSteps(k), Int(Fac(k)), [MainFrame], 4)
  {
    assert m.frames.elems == [MainFrame] + [FacFrame(receiver, k, 4)];
    FacCall(m, [MainFrame], receiver, k, 4);
  }

  /** The factorial program from any machine about to run it. */
  lemma FacRun(m: Machine, x: Word)
    requires Start(m) && FacProgramCode(m.code, x) && x as nat <= 12
    ensures Halts(m, FacSteps(x as nat) + 5, Int(Fac(x as nat)))
  {
    var n := FacSteps(x as nat) + 1;
    FacSetup(m, x);
    var m4 := Run(m, 4).value.machine;
    assert MethodEntry(m4.pool, 9, 30, 2, 0);
    FacFinishes(m4, m4.frames.elems[1].vars[0], x as nat);
    HaltsAfter(m, 4, n, Int(Fac(x as nat)));
  }

  /** The factorial program of the executor tests: from an empty machine,
      `FacSteps(x) + 5` steps end the program with `x!` as the only value
      on the operand stack and no frame left. */
  lemma FacProgram(code: seq<Instruction>, x: Word, min: nat)
    requires FacProgramCode(code, x) && x as nat <= 12
    ensures var r := Run(Executor.New(TestPool, code, min), FacSteps(x as nat) + 5);
      && r.Ok? && !r.value.running
      && r.value.machine.operands.elems == [Int(Fac(x as nat))]
      && r.value.machine.frames.elems == []
  {
    FacRun(Executor.New(TestPool, code, min), x);
  }

  /** Address 0 calls `<main>`, which creates a `Math`, pushes `x` and
      `y`, calls `max` and returns; `max` is at 30. */
  predicate MaxProgramCode(code: seq<Instruction>, x: Word, y: Word) {
    && MaxCode(code)
    && code[0] == Instruction(CALL, 1)
    && code[1] == Instruction(NEW, 6)
    && code[2] == Instruction(PUSH, x)
    && code[3] == Instruction(PUSH, y)
    && code[4] == Instruction(CALL, 7)
    && code[5] == Instruction(RETURN, 0)
  }

  /** `<main>` at address 2 of the max program: PUSH x; PUSH y; CALL 7
      enter `max(receiver, x, y)`, returning to address 5. */
  lemma MaxMainCall(m: Machine, x: Word, y: Word)
    requires Objects.Valid(m.heap) && MaxProgramCode(m.code, x, y) && m.pool == TestPool
    requires m.pc == 2 && |m.operands.elems| == 1 && m.frames.elems == [MainFrame]
    ensures var r := Run(m, 3);
      && r.Ok? && r.value.running
      && var m' := r.value.machine; var a, b := Int32.FromU32(x as nat), Int32.FromU32(y as nat);
      && m'.code == m.code && m'.pool == m.pool && m'.heap == m.heap
      && m'.pc == 30 && m'.operands.elems == []
      && m'.frames.elems == [MainFrame, CallStacks.Frame([m.operands.elems[0], Int(a), Int(b)], 5)]
  {
    var a, b := Int32.FromU32(x as nat), Int32.FromU32(y as nat);
    var receiver := m.operands.elems[0];
    StepPush(m, x);
    var m1 := Step(m).value.machine;
    StepPush(m1, y);
    var m2 := Step(m1).value.machine;
    var s := m2.operands.elems;
    assert s == [receiver, Int(a), Int(b)];
    assert s[|s| - 3..] + Zeros(0) == s;
    assert MethodEntry(m2.pool, 7, 30, 3, 0);
    StepCall(m2, 7);
    RunStep(m, 2);
    RunStep(m1, 1);
    RunStep(m2, 0);
  }

  /** The five steps before `max` runs. */
  lemma MaxSetup(m: Machine, x: Word, y: Word)
    requires Start(m) && MaxProgramCode(m.code, x, y)
    ensures var r := Run(m, 5);
      && r.Ok? && r.value.running
      && var m' := r.value.machine; var a, b := Int32.FromU32(x as nat), Int32.FromU32(y as nat);
      && m'.code == m.code && m'.pool == TestPool && Objects.Valid(m'.heap)
      && m'.pc == 30 && m'.operands.elems == []
      && |m'.frames.elems| == 2 && |m'.frames.elems[1].vars| == 3
      && m'.frames.elems == [MainFrame, CallStacks.Frame([m'.frames.elems[1].vars[0], Int(a), Int(b)], 5)]
  {
    EnterMain(m);
    var m1 := Run(m, 1).value.machine;
    MainNew(m1, 6);
    var m2 := Run(m1, 1).value.machine;
    MaxMainCall(m2, x, y);
    RunSplit(m, 1, 1);
    RunSplit(m, 2, 3);
  }

  /** From inside `max(receiver, a, b)` called by `<main>` at address 4,
      the program runs to its end with the larger of `a` and `b` as the
      only value left. */
  lemma MaxFinishes(m: Machine, receiver: Value, a: int, b: int)
    requires Objects.Valid(m.heap) && MaxCode(m.code)
    requires |m.code| > 5 && m.code[5] == Instruction(RETURN, 0)
    requires m.pc == 30 && m.operands.elems == []
    requires m.frames.elems == [MainFrame, CallStacks.Frame([receiver, Int(a), Int(b)], 5)]
    ensures Halts(m, 6, Int(if a > b then a else b))
  {
    assert m.frames.elems == [MainFrame] + [CallStacks.Frame([receiver, Int(a), Int(b)], 5)];
    MaxCall(m, [MainFrame], receiver, a, b, 5);
    ReturnsToMain(m, 5, Int(if a > b then a else b), 5);
  }

  /** The max program from any machine about to run it. */
  lemma MaxRun(m: Machine, x: Word, y: Word)
    requires Start(m) && MaxProgramCode(m.code, x, y)
    ensures var a, b := Int32.FromU32(x as nat), Int32.FromU32(y as nat);
      Halts(m, 11, Int(if a > b then a else b))
  {
    var a, b := Int32.FromU32(x as nat), Int32.FromU32(y as nat);
    MaxSetup(m, x, y);
    var m5 := Run(m, 5).value.machine;
    MaxFinishes(m5, m5.frames.elems[1].vars[0], a, b);
    HaltsAfter(m, 5, 6, Int(if a > b then a else b));
  }

  /** The max program of the executor tests: from an empty machine, eleven
      steps end the program with the larger of the two signed operands as
      the only value on the operand stack and no frame left. */
  lemma MaxProgram(code: seq<Instruction>, x: Word, y: Word, min: nat)
    requires MaxProgramCode(code, x, y)
    ensures var r := Run(Executor.New(TestPool, code, min), 11);
      var a, b := Int32.FromU32(x as nat), Int32.FromU32(y as nat);
      && r.Ok? && !r.value.running
      && r.value.machine.operands.elems == [Int(if a > b then a else b)]
      && r.value.machine.frames.elems == []
  {
    MaxRun(Executor.New(TestPool, code, min), x, y);
  }
}
