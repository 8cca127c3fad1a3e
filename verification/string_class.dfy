/** The built-in String class (string_class.c): an object tagged
    `CLASS_STRING` whose one slot points at a privately owned buffer. */
module StringClass {
  import opened Values
  import opened Objects
  import opened CStrings
  import Intrinsics

  /** `a` is a well-formed String: the tag, exactly one slot, and that slot
      refers to a live buffer holding a C string. */
  predicate IsString(h: Heap, a: nat) {
    && a in h.cells
    && h.cells[a].Obj?
    && h.cells[a].tag == Intrinsics.CLASS_STRING
    && |h.cells[a].fields| == 1
    && h.cells[a].fields[0].Ref?
    && h.cells[a].fields[0].r in h.cells
    && h.cells[a].fields[0].r != a
    && h.cells[h.cells[a].fields[0].r].Buffer?
    && IsText(h.cells[h.cells[a].fields[0].r].chars)
  }

  /** The address of the String's character buffer. */
  function BufferOf(h: Heap, a: nat): (b: nat)
    requires IsString(h, a)
    ensures b in h.cells && h.cells[b].Buffer? && b != a
  {
    h.cells[a].fields[0].r
  }

  /** `string_get_value`: the characters in the String's buffer. */
  function GetValue(h: Heap, a: nat): (v: string)
    requires IsString(h, a)
    ensures h.cells[BufferOf(h, a)] == Buffer(v)
    ensures IsText(v)
  {
    h.cells[BufferOf(h, a)].chars
  }

  /** `string_new`: allocate the object first, then a buffer holding a copy
      of `v`, and point the object's slot at it. `v` is the text of a C
      string, which is all a `const char *` can denote. */
  function StringNew(h: Heap, v: string): (res: (Heap, nat))
    requires Valid(h) && IsText(v)
    ensures var (h', a) := res;
      && Valid(h')
      && IsString(h', a)
      && GetValue(h', a) == v
      && a !in h.cells && BufferOf(h', a) !in h.cells
      && h'.cells.Keys == h.cells.Keys + {a, BufferOf(h', a)}
      && (forall b :: b in h.cells ==> h'.cells[b] == h.cells[b])
  {
    var (h1, a) := ObjectNew(h, Intrinsics.CLASS_STRING, 1);
    var (h2, buf) := Alloc(h1, Buffer(v));
    (Heap(h2.cells[a := Obj(Intrinsics.CLASS_STRING, [Ref(buf)])], h2.next), a)
  }

  /** `string_free`: the buffer and the object go, nothing else. */
  function StringFree(h: Heap, a: nat): (r: Heap)
    requires Valid(h) && IsString(h, a)
    ensures Valid(r)
    ensures r.cells == h.cells - {a, BufferOf(h, a)}
  {
    Release(Release(h, BufferOf(h, a)), a)
  }

  /** The buffer is a private copy: changing any other cell, including a
      buffer the text was copied from, does not change the String's value. */
  lemma {:induction false} ValueIsPrivate(h: Heap, a: nat, b: nat, c: Cell)
    requires IsString(h, a) && b != a && b != BufferOf(h, a)
    ensures IsString(Heap(h.cells[b := c], h.next), a)
    ensures GetValue(Heap(h.cells[b := c], h.next), a) == GetValue(h, a)
  {
    var h' := Heap(h.cells[b := c], h.next);
    assert h'.cells[a] == h.cells[a];
    assert h'.cells[BufferOf(h, a)] == h.cells[BufferOf(h, a)];
  }

  /** Freeing one String leaves every String that does not share its
      buffer intact, with the same value. */
  lemma {:induction false} FreeKeepsOthers(h: Heap, a: nat, s: nat)
    requires Valid(h) && IsString(h, a) && IsString(h, s)
    requires s != a && BufferOf(h, s) != BufferOf(h, a)
    ensures IsString(StringFree(h, a), s)
    ensures GetValue(StringFree(h, a), s) == GetValue(h, s)
  {
    var h' := StringFree(h, a);
    assert h'.cells[s] == h.cells[s];
    assert BufferOf(h, s) != a;
    assert h'.cells[BufferOf(h, s)] == h.cells[BufferOf(h, s)];
  }
}
