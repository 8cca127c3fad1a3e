/** `object_free` (object.c): release an object together with whatever it
    owns, chosen by its class tag. */
module ObjectRelease {
  import opened Objects
  import StringClass
  import CStrings
  import StringBuilderClass
  import Intrinsics

  /** The tag-specific shape `object_free` relies on: a String or
      StringBuilder tag is only ever found on a well-formed instance. */
  predicate Freeable(h: Heap, a: nat) {
    && IsObject(h, a)
    && (h.cells[a].tag == Intrinsics.CLASS_STRING ==> StringClass.IsString(h, a))
    && (h.cells[a].tag == Intrinsics.CLASS_STRING_BUILDER ==> StringBuilderClass.IsBuilder(h, a))
  }

  /** The cells an object owns: a String its buffer, a StringBuilder its
      current String and that String's buffer, any other object nothing. */
  function Owned(h: Heap, a: nat): (s: set<nat>)
    requires Freeable(h, a)
    ensures a in s
  {
    var tag := h.cells[a].tag;
    if tag == Intrinsics.CLASS_STRING then {a, StringClass.BufferOf(h, a)}
    else if tag == Intrinsics.CLASS_STRING_BUILDER then
      var s := StringBuilderClass.Current(h, a);
      {a, s, StringClass.BufferOf(h, s)}
    else {a}
  }

  function ObjectFree(h: Heap, a: nat): (r: Heap)
    requires Valid(h) && Freeable(h, a)
    ensures Valid(r)
    ensures r.cells == h.cells - Owned(h, a)
  {
    var tag := h.cells[a].tag;
    if tag == Intrinsics.CLASS_STRING then StringClass.StringFree(h, a)
    else if tag == Intrinsics.CLASS_STRING_BUILDER then StringBuilderClass.BuilderFree(h, a)
    else Release(h, a)
  }

  /** Freeing a plain object just created gives back the heap it was created in. */
  lemma {:induction false} FreeUndoesObjectNew(h: Heap, tag: nat, count: nat)
    requires Valid(h) && tag != Intrinsics.CLASS_STRING && tag != Intrinsics.CLASS_STRING_BUILDER
    ensures Freeable(ObjectNew(h, tag, count).0, ObjectNew(h, tag, count).1)
    ensures ObjectFree(ObjectNew(h, tag, count).0, ObjectNew(h, tag, count).1).cells == h.cells
  {
    var (h', a) := ObjectNew(h, tag, count);
    assert h'.cells - {a} == h.cells;
  }

  /** Freeing a String just created releases exactly what `string_new` allocated. */
  lemma {:induction false} FreeUndoesStringNew(h: Heap, v: string)
    requires Valid(h) && CStrings.IsText(v)
    ensures Freeable(StringClass.StringNew(h, v).0, StringClass.StringNew(h, v).1)
    ensures ObjectFree(StringClass.StringNew(h, v).0, StringClass.StringNew(h, v).1).cells == h.cells
  {
    var (h', a) := StringClass.StringNew(h, v);
    assert h'.cells - {a, StringClass.BufferOf(h', a)} == h.cells;
  }

  /** Freeing a StringBuilder just created releases exactly what
      `string_builder_new` allocated. */
  lemma {:induction false} FreeUndoesBuilderNew(h: Heap)
    requires Valid(h)
    ensures Freeable(StringBuilderClass.New(h).0, StringBuilderClass.New(h).1)
    ensures ObjectFree(StringBuilderClass.New(h).0, StringBuilderClass.New(h).1).cells == h.cells
  {
    var (h', sb) := StringBuilderClass.New(h);
    var s := StringBuilderClass.Current(h', sb);
    assert h'.cells - {sb, s, StringClass.BufferOf(h', s)} == h.cells;
  }
}
