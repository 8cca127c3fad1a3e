/** The built-in StringBuilder class (string_builder_class.c): an object
    tagged `CLASS_STRING_BUILDER` whose one slot holds its current String.
    Every append builds a fresh String holding the concatenation, frees the
    previous one and installs the new one. */
module StringBuilderClass {
  import opened Values
  import opened Objects
  import opened StringClass
  import opened CStrings
  import Intrinsics
  import Int32

  predicate IsBuilder(h: Heap, sb: nat) {
    && sb in h.cells
    && h.cells[sb].Obj?
    && h.cells[sb].tag == Intrinsics.CLASS_STRING_BUILDER
    && |h.cells[sb].fields| == 1
    && h.cells[sb].fields[0].Ref?
    && IsString(h, h.cells[sb].fields[0].r)
  }

  /** The String the builder currently holds. */
  function Current(h: Heap, sb: nat): (s: nat)
    requires IsBuilder(h, sb)
    ensures IsString(h, s) && s != sb && BufferOf(h, s) != sb
  {
    h.cells[sb].fields[0].r
  }

  /** The text accumulated so far. */
  function Text(h: Heap, sb: nat): string
    requires IsBuilder(h, sb)
  {
    GetValue(h, Current(h, sb))
  }

  /** `string_builder_new`: the builder object first, then an empty String for its slot. */
  function New(h: Heap): (res: (Heap, nat))
    requires Valid(h)
    ensures var (h', sb) := res;
      && Valid(h')
      && IsBuilder(h', sb)
      && h'.cells[sb].tag == Intrinsics.CLASS_STRING_BUILDER
      && Text(h', sb) == ""
      && sb !in h.cells && Current(h', sb) !in h.cells && BufferOf(h', Current(h', sb)) !in h.cells
      && (forall b :: b in h.cells ==> b in h'.cells && h'.cells[b] == h.cells[b])
  {
    var (h1, sb) := ObjectNew(h, Intrinsics.CLASS_STRING_BUILDER, 1);
    var (h2, s) := StringNew(h1, "");
    (Heap(h2.cells[sb := Obj(Intrinsics.CLASS_STRING_BUILDER, [Ref(s)])], h2.next), sb)
  }

  /** `concat_string`: a temporary buffer with both texts, a String made
      from it, then the temporary released. */
  function ConcatString(h: Heap, left: string, right: string): (res: (Heap, nat))
    requires Valid(h) && IsText(left) && IsText(right)
    ensures var (h', s) := res;
      && Valid(h')
      && IsString(h', s)
      && GetValue(h', s) == left + right
      && s !in h.cells && BufferOf(h', s) !in h.cells
      && h'.cells.Keys == h.cells.Keys + {s, BufferOf(h', s)}
      && (forall b :: b in h.cells ==> h'.cells[b] == h.cells[b])
  {
    var (h1, tmp) := Alloc(h, Buffer(left + right));
    var (h2, s) := StringNew(h1, h1.cells[tmp].chars);
    (Release(h2, tmp), s)
  }

  /** The common shape of the three appends: concatenate, free the previous
      String, install the new one. */
  function AppendText(h: Heap, sb: nat, suffix: string): (r: Heap)
    requires Valid(h) && IsBuilder(h, sb) && IsText(suffix)
    ensures Valid(r) && IsBuilder(r, sb)
    ensures Text(r, sb) == Text(h, sb) + suffix
    ensures Current(r, sb) !in h.cells && BufferOf(r, Current(r, sb)) !in h.cells
    ensures Current(h, sb) !in r.cells && BufferOf(h, Current(h, sb)) !in r.cells
    ensures r.cells.Keys == h.cells.Keys - {Current(h, sb), BufferOf(h, Current(h, sb))}
      + {Current(r, sb), BufferOf(r, Current(r, sb))}
    ensures forall b :: (b in h.cells && b != sb && b != Current(h, sb) && b != BufferOf(h, Current(h, sb)))
                        ==> h.cells[b] == r.cells[b]
  {
    var previous := Current(h, sb);
    var (h1, s) := ConcatString(h, Text(h, sb), suffix);
    var h2 := StringFree(h1, previous);
    Heap(h2.cells[sb := Obj(Intrinsics.CLASS_STRING_BUILDER, [Ref(s)])], h2.next)
  }

  /** `string_builder_append_string`. The appended String is left as it
      was, unless it is the builder's own current String, which the append
      frees. Two distinct Strings never share a buffer. */
  function AppendString(h: Heap, sb: nat, s: nat): (r: Heap)
    requires Valid(h) && IsBuilder(h, sb) && IsString(h, s)
    requires s == Current(h, sb) || BufferOf(h, s) != BufferOf(h, Current(h, sb))
    ensures Valid(r) && IsBuilder(r, sb)
    ensures Text(r, sb) == Text(h, sb) + GetValue(h, s)
    ensures s != Current(h, sb) ==> IsString(r, s) && GetValue(r, s) == GetValue(h, s)
    ensures s == Current(h, sb) ==> s !in r.cells
    ensures Current(r, sb) !in h.cells && Current(h, sb) !in r.cells
  {
    var r := AppendText(h, sb, GetValue(h, s));
    if s != Current(h, sb) then
      assert r.cells[s] == h.cells[s];
      assert r.cells[BufferOf(h, s)] == h.cells[BufferOf(h, s)];
      r
    else r
  }

  /** Base-10 digits of a natural number, most significant first. */
  function Digits(n: nat): (s: string)
    ensures |s| >= 1
    ensures forall k :: 0 <= k < |s| ==> '0' <= s[k] <= '9'
    decreases n
  {
    if n < 10 then [DigitChar(n)] else Digits(n / 10) + [DigitChar(n % 10)]
  }

  function DigitChar(d: nat): (c: char)
    requires d < 10
    ensures '0' <= c <= '9' && c as int - '0' as int == d
  {
    ('0' as int + d) as char
  }

  /** The text `itoa(i, buffer, 10)` writes: a '-' for negative values,
      then the digits of the magnitude. */
  function Decimal(i: int): (s: string)
    ensures |s| >= 1 && IsText(s)
    ensures s[0] == '-' <==> i < 0
  {
    if i < 0 then "-" + Digits(-i) else Digits(i)
  }

  /** The reading a decimal text denotes, as an independent reference for `Decimal`. */
  function ParseDigits(s: string): nat
    requires forall k :: 0 <= k < |s| ==> '0' <= s[k] <= '9'
  {
    if |s| == 0 then 0
    else ParseDigits(s[..|s| - 1]) * 10 + (s[|s| - 1] as int - '0' as int)
  }

  function ParseDecimal(s: string): int
    requires |s| >= 1
    requires forall k :: (if s[0] == '-' then 1 else 0) <= k < |s| ==> '0' <= s[k] <= '9'
  {
    if s[0] == '-' then 0 - ParseDigits(s[1..]) else ParseDigits(s)
  }

  lemma {:induction false} DigitsRoundTrip(n: nat)
    ensures ParseDigits(Digits(n)) == n
    decreases n
  {
    if n >= 10 {
      DigitsRoundTrip(n / 10);
      var s := Digits(n);
      assert s[..|s| - 1] == Digits(n / 10);
    }
  }

  /** The digits carry no leading zero, so `Decimal` is the canonical text. */
  lemma {:induction false} DigitsCanonical(n: nat)
    ensures Digits(n)[0] == '0' <==> n == 0
    decreases n
  {
    if n >= 10 {
      DigitsCanonical(n / 10);
    }
  }

  /** Reading back the text of an integer gives the integer. */
  lemma {:induction false} DecimalRoundTrip(i: int)
    ensures ParseDecimal(Decimal(i)) == i
  {
    if i < 0 {
      DigitsRoundTrip(-i);
      assert Decimal(i)[1..] == Digits(-i);
    } else {
      DigitsRoundTrip(i);
    }
  }

  /** `string_builder_append_int`. */
  function AppendInt(h: Heap, sb: nat, i: int): (r: Heap)
    requires Valid(h) && IsBuilder(h, sb) && Int32.IsI32(i)
    ensures Valid(r) && IsBuilder(r, sb)
    ensures Text(r, sb) == Text(h, sb) + Decimal(i)
  {
    AppendText(h, sb, Decimal(i))
  }

  function BoolText(b: int): (s: string)
    ensures IsText(s)
  {
    if b != 0 then "true" else "false"
  }

  /** `string_builder_append_bool`: any non-zero integer is true. */
  function AppendBool(h: Heap, sb: nat, b: int): (r: Heap)
    requires Valid(h) && IsBuilder(h, sb)
    ensures Valid(r) && IsBuilder(r, sb)
    ensures b != 0 ==> Text(r, sb) == Text(h, sb) + "true"
    ensures b == 0 ==> Text(r, sb) == Text(h, sb) + "false"
  {
    AppendText(h, sb, BoolText(b))
  }

  /** `string_builder_to_string` hands out the builder's own String: no
      allocation happens and the returned object is already live. */
  function ToString(h: Heap, sb: nat): (s: nat)
    requires IsBuilder(h, sb)
    ensures IsString(h, s) && s in h.cells
    ensures GetValue(h, s) == Text(h, sb)
  {
    Current(h, sb)
  }

  /** `string_builder_free`: the current String (object and buffer), then the builder. */
  function BuilderFree(h: Heap, sb: nat): (r: Heap)
    requires Valid(h) && IsBuilder(h, sb)
    ensures Valid(r)
    ensures r.cells == h.cells - {sb, Current(h, sb), BufferOf(h, Current(h, sb))}
  {
    Release(StringFree(h, Current(h, sb)), sb)
  }

  lemma DecimalOneTwoThree()
    ensures Decimal(123) == "123"
  {
    assert Digits(12) == "12";
  }

  /** Onto an empty builder, appending a String "Hello!", then true, then
      123 gives "Hello!true123". */
  lemma {:induction false} HelloTrue123(h: Heap, sb: nat, hello: nat)
    requires Valid(h) && IsBuilder(h, sb) && Text(h, sb) == ""
    requires IsString(h, hello) && GetValue(h, hello) == "Hello!"
    requires BufferOf(h, hello) != BufferOf(h, Current(h, sb))
    ensures var h' := AppendInt(AppendBool(AppendString(h, sb, hello), sb, 1), sb, 123);
      GetValue(h', ToString(h', sb)) == "Hello!" + "true" + "123"
  {
    var h3 := AppendString(h, sb, hello);
    assert Text(h3, sb) == "Hello!";
    var h4 := AppendBool(h3, sb, 1);
    assert Text(h4, sb) == Text(h3, sb) + "true";
    var h5 := AppendInt(h4, sb, 123);
    assert Text(h5, sb) == Text(h4, sb) + Decimal(123);
    DecimalOneTwoThree();
  }
}
