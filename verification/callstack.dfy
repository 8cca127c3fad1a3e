/** The call stack (callstack.c): a growable stack of frames. */
module CallStacks {
  import opened Results
  import opened Values
  import GrowableStack

  /** One activation: the vars array (arguments then locals; its length is
      the source's `vars_count`) and the saved program counter. */
  datatype Frame = Frame(vars: seq<Value>, returnAddress: nat)

  type CallStack = GrowableStack.Stack<Frame>

  function New(min: nat): (cs: CallStack)
    ensures |cs.elems| == 0 && cs.capacity == min
  {
    GrowableStack.New(min)
  }

  function Push(cs: CallStack, frame: Frame): (r: CallStack)
    ensures r.elems == cs.elems + [frame]
    ensures Top(r) == Ok(frame)
  {
    GrowableStack.Push(cs, frame)
  }

  /** `callstack_top` hands back a copy of the top frame and leaves the stack alone. */
  function Top(cs: CallStack): (r: Result<Frame>)
    ensures r.Ok? <==> |cs.elems| > 0
    ensures r.Ok? ==> r.value == cs.elems[|cs.elems| - 1]
  {
    GrowableStack.Top(cs)
  }

  function Pop(cs: CallStack, min: nat): (r: Result<CallStack>)
    ensures r.Ok? <==> |cs.elems| > 0
    ensures r.Ok? ==> r.value.elems == cs.elems[..|cs.elems| - 1]
  {
    GrowableStack.Pop(cs, min)
  }

  /** Replace the top frame in place, as the source does when it writes
      through the vars pointer of the frame `callstack_top` returns. */
  function SetTop(cs: CallStack, frame: Frame): (r: Result<CallStack>)
    ensures r.Ok? <==> |cs.elems| > 0
    ensures r.Ok? ==> r.value.elems == cs.elems[..|cs.elems| - 1] + [frame]
    ensures r.Ok? ==> r.value.capacity == cs.capacity
  {
    if |cs.elems| == 0 then Err(StackUnderflow)
    else Ok(cs.(elems := cs.elems[|cs.elems| - 1 := frame]))
  }

  /** Frames with return addresses 0, 1, ..., n-1 and no vars, as in the
      source's call-stack test. */
  function CountingFrames(n: nat): (fs: seq<Frame>)
    ensures |fs| == n && forall i :: 0 <= i < n ==> fs[i].returnAddress == i
  {
    seq(n, i requires 0 <= i < n => Frame([], i))
  }

  /** Frames pushed with return addresses 0..n-1 are popped with return
      addresses n-1 down to 0, leaving the stack empty. */
  lemma {:induction false} FramesUnwindInReverse(n: nat)
    ensures var d := GrowableStack.Drain(GrowableStack.PushAll(New(8), CountingFrames(n)), n, 8);
      && d.Ok?
      && |d.value.1.elems| == 0
      && forall i :: 0 <= i < n ==> d.value.0[i].returnAddress == n - 1 - i
  {
    var fs := CountingFrames(n);
    GrowableStack.PushThenDrain(New(8), fs, 8);
    var d := GrowableStack.Drain(GrowableStack.PushAll(New(8), fs), n, 8);
    forall i | 0 <= i < n
      ensures d.value.0[i].returnAddress == n - 1 - i
    {
      assert d.value.0[i] == fs[n - 1 - i];
    }
  }

  /** For 501 frames from a minimum of 8, the buffer grows to 512 and
      shrinks back to 8 once they are all popped. */
  lemma FramesGrowAndShrink()
    ensures GrowableStack.PushAll(New(8), CountingFrames(501)).capacity == 512
    ensures var d := GrowableStack.Drain(GrowableStack.PushAll(New(8), CountingFrames(501)), 501, 8);
      d.Ok? && d.value.1.capacity == 8
  {
    GrowableStack.FiveHundredOnePushes(CountingFrames(501));
  }
}
