/** The growable LIFO store behind both runtime stacks (stack.c).
    `capacity` is the size of the backing buffer; it doubles when a push
    finds the buffer full and halves when a pop leaves it a quarter full,
    never dropping below the configured minimum `min`. */
module GrowableStack {
  import opened Results

  datatype Stack<T> = Stack(elems: seq<T>, capacity: nat)

  /** `capacity` is `min` doubled some number of times. */
  predicate Doubling(capacity: nat, min: nat)
    decreases capacity
  {
    capacity == min || (min < capacity && capacity % 2 == 0 && Doubling(capacity / 2, min))
  }

  /** The representation invariant every reachable stack keeps. */
  predicate Valid<T>(s: Stack<T>, min: nat) {
    && 1 <= min
    && |s.elems| <= s.capacity
    && Doubling(s.capacity, min)
  }

  /** Above the minimum the buffer is always more than a quarter full; this
      is what lets a drained stack shrink all the way back to `min`. */
  predicate Balanced<T>(s: Stack<T>, min: nat) {
    s.capacity == min || |s.elems| > s.capacity / 4
  }

  function New<T>(min: nat): (s: Stack<T>)
    ensures s.elems == [] && s.capacity == min
    ensures 1 <= min ==> Valid(s, min) && Balanced(s, min)
  {
    Stack([], min)
  }

  function Push<T>(s: Stack<T>, x: T): (r: Stack<T>)
    ensures r.elems == s.elems + [x]
    ensures |s.elems| == s.capacity ==> r.capacity == 2 * s.capacity
    ensures |s.elems| != s.capacity ==> r.capacity == s.capacity
  {
    var capacity := if |s.elems| == s.capacity then s.capacity * 2 else s.capacity;
    Stack(s.elems + [x], capacity)
  }

  function Top<T>(s: Stack<T>): (r: Result<T>)
    ensures r.Ok? <==> |s.elems| > 0
    ensures r.Err? ==> r.fault == StackUnderflow
    ensures r.Ok? ==> r.value == s.elems[|s.elems| - 1]
  {
    if |s.elems| == 0 then Err(StackUnderflow) else Ok(s.elems[|s.elems| - 1])
  }

  /** The shrink rule of `stack_pop`, on the length after the decrement. */
  predicate ShrinksAt(length: nat, capacity: nat, min: nat) {
    length > 0 && length >= min / 2 && length == capacity / 4
  }

  function Pop<T>(s: Stack<T>, min: nat): (r: Result<Stack<T>>)
    ensures r.Ok? <==> |s.elems| > 0
    ensures r.Err? ==> r.fault == StackUnderflow
    ensures r.Ok? ==> r.value.elems == s.elems[..|s.elems| - 1]
    ensures r.Ok? && ShrinksAt(|s.elems| - 1, s.capacity, min) ==> r.value.capacity == s.capacity / 2
    ensures r.Ok? && !ShrinksAt(|s.elems| - 1, s.capacity, min) ==> r.value.capacity == s.capacity
  {
    if |s.elems| == 0 then Err(StackUnderflow)
    else
      var length := |s.elems| - 1;
      var capacity := if ShrinksAt(length, s.capacity, min) then s.capacity / 2 else s.capacity;
      Ok(Stack(s.elems[..length], capacity))
  }

  lemma {:induction false} DoublingAtLeastTwice(capacity: nat, min: nat)
    requires Doubling(capacity, min) && capacity != min
    ensures capacity >= 2 * min
    decreases capacity
  {
    if capacity / 2 != min {
      DoublingAtLeastTwice(capacity / 2, min);
    }
  }

  lemma {:induction false} DoublingAtLeastMin(capacity: nat, min: nat)
    requires Doubling(capacity, min)
    ensures capacity >= min
  {
    if capacity != min {
      DoublingAtLeastTwice(capacity, min);
    }
  }

  /** `push` keeps the invariant: length within capacity, capacity a doubling of `min`. */
  lemma PushValid<T>(s: Stack<T>, x: T, min: nat)
    requires Valid(s, min)
    ensures Valid(Push(s, x), min)
    ensures Push(s, x).capacity >= min
  {
    DoublingAtLeastMin(s.capacity, min);
    var r := Push(s, x);
    if |s.elems| == s.capacity {
      assert r.capacity / 2 == s.capacity;
    }
    DoublingAtLeastMin(r.capacity, min);
  }

  /** `pop` keeps the invariant; in particular capacity never drops below `min`. */
  lemma PopValid<T>(s: Stack<T>, min: nat)
    requires Valid(s, min) && |s.elems| > 0
    ensures Pop(s, min).Ok? && Valid(Pop(s, min).value, min)
    ensures Pop(s, min).value.capacity >= min
  {
    var length := |s.elems| - 1;
    if ShrinksAt(length, s.capacity, min) && s.capacity == min {
      assert false;
    }
    DoublingAtLeastMin(Pop(s, min).value.capacity, min);
  }

  lemma PushBalanced<T>(s: Stack<T>, x: T, min: nat)
    requires Valid(s, min) && Balanced(s, min)
    ensures Balanced(Push(s, x), min)
  {
  }

  lemma PopBalanced<T>(s: Stack<T>, min: nat)
    requires Valid(s, min) && Balanced(s, min) && 2 <= min && |s.elems| > 0
    ensures Pop(s, min).Ok? && Balanced(Pop(s, min).value, min)
  {
    if s.capacity != min {
      DoublingAtLeastTwice(s.capacity, min);
      assert s.capacity / 4 >= min / 2;
    }
  }

  /** Push every element of `xs`, first to last. */
  function PushAll<T>(s: Stack<T>, xs: seq<T>): (r: Stack<T>)
    ensures r.elems == s.elems + xs
    decreases |xs|
  {
    if |xs| == 0 then s
    else
      var r := PushAll(Push(s, xs[0]), xs[1..]);
      assert s.elems + [xs[0]] + xs[1..] == s.elems + xs;
      r
  }

  /** The capacity reached by doubling from `capacity` until `n` elements fit. */
  function Fit(n: nat, capacity: nat): (c: nat)
    requires 1 <= capacity
    ensures n <= c && capacity <= c
    decreases if n > capacity then n - capacity else 0
  {
    if n <= capacity then capacity else Fit(n, 2 * capacity)
  }

  /** Pushes never shrink the buffer: the capacity after pushing `xs` is the
      first doubling that holds everything. */
  lemma {:induction false} PushAllCapacity<T>(s: Stack<T>, xs: seq<T>)
    requires 1 <= s.capacity && |s.elems| <= s.capacity
    ensures PushAll(s, xs).capacity == Fit(|s.elems| + |xs|, s.capacity)
    decreases |xs|
  {
    if |xs| > 0 {
      var t := Push(s, xs[0]);
      PushAllCapacity(t, xs[1..]);
      assert |t.elems| + |xs[1..]| == |s.elems| + |xs|;
      if |s.elems| == s.capacity {
        assert Fit(|s.elems| + |xs|, s.capacity) == Fit(|s.elems| + |xs|, 2 * s.capacity);
      }
    }
  }

  /** Pop `n` elements; the popped values are returned in pop order. */
  function Drain<T>(s: Stack<T>, n: nat, min: nat): (r: Result<(seq<T>, Stack<T>)>)
    ensures r.Ok? <==> n <= |s.elems|
    ensures r.Ok? ==> |r.value.0| == n && r.value.1.elems == s.elems[..|s.elems| - n]
    ensures r.Ok? ==> forall i :: 0 <= i < n ==> r.value.0[i] == s.elems[|s.elems| - 1 - i]
    decreases n
  {
    if n == 0 then Ok(([], s))
    else if |s.elems| == 0 then Err(StackUnderflow)
    else
      var x := Top(s).value;
      var t := Pop(s, min).value;
      var rest :- Drain(t, n - 1, min);
      Ok(([x] + rest.0, rest.1))
  }

  /** Draining a valid, balanced stack returns its capacity to the minimum. */
  lemma {:induction false} DrainToMinimum<T>(s: Stack<T>, min: nat)
    requires Valid(s, min) && Balanced(s, min) && 2 <= min
    ensures Drain(s, |s.elems|, min).Ok?
    ensures Drain(s, |s.elems|, min).value.1.capacity == min
    decreases |s.elems|
  {
    if |s.elems| > 0 {
      PopValid(s, min);
      PopBalanced(s, min);
      var t := Pop(s, min).value;
      DrainToMinimum(t, min);
    }
  }

  /** LIFO: the elements pushed come back in reverse order, and the stack
      underneath is left as it was. */
  lemma {:induction false} PushThenDrain<T>(s: Stack<T>, xs: seq<T>, min: nat)
    ensures Drain(PushAll(s, xs), |xs|, min).Ok?
    ensures Drain(PushAll(s, xs), |xs|, min).value.1.elems == s.elems
    ensures forall i :: 0 <= i < |xs| ==> Drain(PushAll(s, xs), |xs|, min).value.0[i] == xs[|xs| - 1 - i]
  {
    var t := PushAll(s, xs);
    assert t.elems[..|t.elems| - |xs|] == s.elems;
    var d := Drain(t, |xs|, min);
    assert d.Ok?;
    var popped := d.value.0;
    assert forall i :: 0 <= i < |xs| ==> popped[i] == t.elems[|t.elems| - 1 - i];
    assert forall i :: 0 <= i < |xs| ==> popped[i] == xs[|xs| - 1 - i];
  }

  /** The growth pattern of the source's stack test: from a minimum of 8,
      501 pushes reach capacity 512, and popping them all returns to 8. */
  lemma {:induction false} FiveHundredOnePushes<T>(xs: seq<T>)
    requires |xs| == 501
    ensures PushAll(New<T>(8), xs).capacity == 512
    ensures Drain(PushAll(New<T>(8), xs), |xs|, 8).Ok?
    ensures Drain(PushAll(New<T>(8), xs), |xs|, 8).value.1.capacity == 8
  {
    var s0 := New<T>(8);
    var t := PushAll(s0, xs);
    PushAllCapacity(s0, xs);
    FitFiveHundredOne();
    assert t.capacity == 512;
    PushAllValid(s0, xs, 8);
    DrainToMinimum(t, 8);
    assert |t.elems| == |xs|;
  }

  lemma FitFiveHundredOne()
    ensures Fit(501, 8) == 512
  {
    assert Fit(501, 256) == 512;
    assert Fit(501, 8) == Fit(501, 16) == Fit(501, 32) == Fit(501, 64) == Fit(501, 128) == Fit(501, 256);
  }

  lemma {:induction false} PushAllValid<T>(s: Stack<T>, xs: seq<T>, min: nat)
    requires Valid(s, min) && Balanced(s, min)
    ensures Valid(PushAll(s, xs), min) && Balanced(PushAll(s, xs), min)
    decreases |xs|
  {
    if |xs| > 0 {
      PushValid(s, xs[0], min);
      PushBalanced(s, xs[0], min);
      PushAllValid(Push(s, xs[0]), xs[1..], min);
    }
  }
}
