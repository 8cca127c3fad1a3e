/** A runtime value: an element of the operand stack, of a frame's vars or
    of an object's field slots. The source stores an untagged union of a
    32-bit integer and a pointer; the model keeps the tag explicit so that
    equality is a per-variant comparison. */
module Values {

  datatype Value = Int(i: int) | Ref(r: nat)

  /** What an uninitialised slot (a fresh object's fields, a frame's locals)
      reads as in the model. */
  const Zero: Value := Int(0)

  function Zeros(n: nat): (vs: seq<Value>)
    ensures |vs| == n && forall i :: 0 <= i < n ==> vs[i] == Zero
  {
    seq(n, _ => Zero)
  }
}
