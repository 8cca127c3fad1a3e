/** Heap objects (object.c). An object is a class tag followed by a fixed
    number of value slots; a text buffer is the separately allocated
    character array a String points at. The heap is an arena of cells
    addressed by `nat` references, with `next` the first never-used address,
    so allocation is always fresh and freeing removes the cell. */
module Objects {
  import opened Results
  import opened Values

  datatype Cell = Obj(tag: nat, fields: seq<Value>) | Buffer(chars: string)

  datatype Heap = Heap(cells: map<nat, Cell>, next: nat)

  /** Every live address was handed out by an earlier allocation. */
  predicate Valid(h: Heap) {
    forall a :: a in h.cells ==> a < h.next
  }

  function Empty(): (h: Heap)
    ensures Valid(h) && h.cells == map[]
  {
    Heap(map[], 0)
  }

  /** The allocator hook: a fresh address holding `c`; nothing live moves. */
  function Alloc(h: Heap, c: Cell): (res: (Heap, nat))
    ensures res.0.cells == h.cells[res.1 := c]
    ensures Valid(h) ==> Valid(res.0) && res.1 !in h.cells
  {
    (Heap(h.cells[h.next := c], h.next + 1), h.next)
  }

  /** The free hook: only the given cell disappears. */
  function Release(h: Heap, a: nat): (r: Heap)
    requires Valid(h)
    ensures Valid(r)
    ensures r.cells == h.cells - {a}
  {
    Heap(h.cells - {a}, h.next)
  }

  /** An object of class `tag` with `count` slots. The source leaves the
      slots uninitialised; the model gives them `Zero`. */
  function ObjectNew(h: Heap, tag: nat, count: nat): (res: (Heap, nat))
    ensures Valid(h) ==> Valid(res.0) && res.1 !in h.cells
    ensures res.0.cells == h.cells[res.1 := Obj(tag, Zeros(count))]
  {
    Alloc(h, Obj(tag, Zeros(count)))
  }

  predicate IsObject(h: Heap, a: nat) {
    a in h.cells && h.cells[a].Obj?
  }

  /** The class tag stored in an object's header. */
  function GetClass(h: Heap, a: nat): (r: Result<nat>)
    ensures r.Ok? <==> IsObject(h, a)
    ensures r.Err? ==> r.fault == NotAnObject
  {
    if IsObject(h, a) then Ok(h.cells[a].tag) else Err(NotAnObject)
  }

  /** Read slot `i` of an object. The source computes the slot address with
      no check; an index outside the object is reported as `BadSlot`. */
  function GetField(h: Heap, a: nat, i: nat): (r: Result<Value>)
    ensures r.Ok? <==> IsObject(h, a) && i < |h.cells[a].fields|
    ensures r.Err? ==> r.fault == (if IsObject(h, a) then BadSlot else NotAnObject)
  {
    if !IsObject(h, a) then Err(NotAnObject)
    else if i < |h.cells[a].fields| then Ok(h.cells[a].fields[i])
    else Err(BadSlot)
  }

  /** Write slot `i` of an object through the address `object_get_field` returns. */
  function SetField(h: Heap, a: nat, i: nat, v: Value): (r: Result<Heap>)
    ensures r.Ok? <==> IsObject(h, a) && i < |h.cells[a].fields|
    ensures r.Err? ==> r.fault == (if IsObject(h, a) then BadSlot else NotAnObject)
    ensures r.Ok? ==> r.value.next == h.next && r.value.cells.Keys == h.cells.Keys
    ensures r.Ok? ==> forall b :: b in h.cells && b != a ==> r.value.cells[b] == h.cells[b]
  {
    if !IsObject(h, a) then Err(NotAnObject)
    else if i < |h.cells[a].fields| then
      var o := h.cells[a];
      Ok(Heap(h.cells[a := Obj(o.tag, o.fields[i := v])], h.next))
    else Err(BadSlot)
  }

  /** A fresh object carries the class it was created with and its slot count. */
  lemma NewObjectShape(h: Heap, tag: nat, count: nat)
    requires Valid(h)
    ensures var (h', a) := ObjectNew(h, tag, count);
      && GetClass(h', a) == Ok(tag)
      && (forall i: nat :: i < count ==> GetField(h', a, i) == Ok(Zero))
      && GetField(h', a, count) == Err(BadSlot)
  {
  }

  /** Slots are disjoint: writing slot `i` is seen by a read of slot `i`,
      leaves every other slot, the tag and the slot count as they were,
      and leaves every other object alone. */
  lemma {:induction false} SetThenGet(h: Heap, a: nat, i: nat, v: Value, b: nat, j: nat)
    requires SetField(h, a, i, v).Ok?
    ensures GetField(SetField(h, a, i, v).value, a, i) == Ok(v)
    ensures (b, j) != (a, i) ==> GetField(SetField(h, a, i, v).value, b, j) == GetField(h, b, j)
    ensures GetClass(SetField(h, a, i, v).value, b) == GetClass(h, b)
  {
    var h' := SetField(h, a, i, v).value;
    assert h'.cells[a] == Obj(h.cells[a].tag, h.cells[a].fields[i := v]);
  }

  /** Writes never change how many slots an object has. */
  lemma {:induction false} FieldCountFixed(h: Heap, a: nat, i: nat, v: Value, j: nat)
    requires SetField(h, a, i, v).Ok?
    ensures GetField(SetField(h, a, i, v).value, a, j).Ok? <==> GetField(h, a, j).Ok?
  {
    var h' := SetField(h, a, i, v).value;
    assert h'.cells[a] == Obj(h.cells[a].tag, h.cells[a].fields[i := v]);
  }
}
