/** Fixed-width integers of the C source, written out over Dafny's unbounded `int`. */
module Int32 {

  const TWO_32: int := 0x1_0000_0000
  const MIN: int := -0x8000_0000
  const MAX: int := 0x7fff_ffff

  predicate IsI32(x: int) {
    MIN <= x <= MAX
  }

  predicate IsU32(x: int) {
    0 <= x < TWO_32
  }

  /** The two's-complement reading of a `uint32_t` as an `int32_t`, as happens
      when an instruction's unsigned operand is stored into an integer slot. */
  function FromU32(u: nat): (r: int)
    requires IsU32(u)
    ensures IsI32(r)
    ensures (r - u) % TWO_32 == 0
    ensures 0 <= r <==> u <= MAX
  {
    if u <= MAX then u else u - TWO_32
  }

  /** The unsigned bit pattern of a signed value, as when an `int32_t` is
      stored into an instruction's `uint32_t` operand. */
  function ToU32(x: int): (u: nat)
    requires IsI32(x)
    ensures IsU32(u)
    ensures (u - x) % TWO_32 == 0
  {
    if x >= 0 then x else x + TWO_32
  }

  lemma {:induction false} SignedRoundTrip(x: int)
    requires IsI32(x)
    ensures FromU32(ToU32(x)) == x
  {
    if x < 0 {
      assert ToU32(x) == x + TWO_32 > MAX;
    }
  }

  lemma {:induction false} UnsignedRoundTrip(u: nat)
    requires IsU32(u)
    ensures ToU32(FromU32(u)) == u
  {
    if u > MAX {
      assert FromU32(u) == u - TWO_32 < 0;
    }
  }

  function Abs(x: int): nat {
    if x < 0 then -x else x
  }

  lemma DivNonNegative(n: nat, m: nat)
    requires m > 0
    ensures n / m >= 0
  {
  }

  /** C's `/`: the quotient truncated toward zero. */
  function TruncDiv(a: int, b: int): (q: int)
    requires b != 0
    ensures Abs(q) == Abs(a) / Abs(b)
    ensures q < 0 ==> (a < 0) != (b < 0)
  {
    var n: nat := Abs(a);
    var m: nat := Abs(b);
    DivNonNegative(n, m);
    var d := n / m;
    if (a < 0) == (b < 0) then d else -d
  }

  /** The C99 division identity: `a == q * b + r` where the remainder is
      smaller than the divisor and carries the sign of the dividend. */
  lemma {:induction false} TruncDivRemainder(a: int, b: int)
    requires b != 0
    ensures var r := a - TruncDiv(a, b) * b;
      Abs(r) < Abs(b) && (r == 0 || (r < 0) == (a < 0))
  {
    var m := Abs(a) / Abs(b);
    var k := Abs(a) % Abs(b);
    var p := m * Abs(b);
    assert Abs(a) == p + k && 0 <= k < Abs(b);
    var q := TruncDiv(a, b);
    MulSigns(m, Abs(b));
    if b < 0 {
      assert Abs(b) == -b;
      if a < 0 { assert q == m && q * b == -p; } else { assert q == -m && q * b == p; }
    } else {
      assert b == Abs(b);
      if a < 0 { assert q == -m && q * b == -p; } else { assert q == m && q * b == p; }
    }
  }

  /** How negation moves through a product. */
  lemma MulSigns(x: int, y: int)
    ensures x * -y == -(x * y) && -x * y == -(x * y) && -x * -y == x * y
  {
  }

  lemma {:induction false} TruncDivExamples()
    ensures TruncDiv(50, 25) == 2
    ensures TruncDiv(7, 2) == 3 && TruncDiv(-7, 2) == -3
    ensures TruncDiv(7, -2) == -3 && TruncDiv(-7, -2) == 3
  {
    assert Abs(7) / Abs(2) == 3;
    assert Abs(50) / Abs(25) == 2;
  }
}
