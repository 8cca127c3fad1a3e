/** The constant pool (constantpool.c): a 1-based array of class, field,
    method and string entries, and the pass that builds every class's
    vtable from its parent's and from the methods declared for it. */
module ConstantPools {
  import opened Results
  import VTables

  datatype Entry =
    | Class(name: string, parent: nat, fields: nat, methods: nat, vtable: Option<VTables.VTable>)
    | Field(name: string, owner: nat, slot: nat)
    | Method(name: string, owner: nat, address: nat, args: nat, locals: nat)
    | Str(value: string)

  /** Index `i` lives at `entries[i - 1]`; `None` is an index nothing was
      added at (uninitialised memory in the source). */
  datatype Pool = Pool(entries: seq<Option<Entry>>)

  function Length(p: Pool): nat {
    |p.entries|
  }

  /** `constantpool_new`: `n` indices, none of them set yet. */
  function New(n: nat): (p: Pool)
    ensures Length(p) == n
    ensures forall i :: Get(p, i) == Err(BadPoolRef)
  {
    Pool(seq(n, _ => None))
  }

  /** `constantpool_get`: the entry at a 1-based index. */
  function Get(p: Pool, i: nat): (r: Result<Entry>)
    ensures r.Ok? <==> 1 <= i <= Length(p) && p.entries[i - 1].Some?
    ensures r.Err? ==> r.fault == BadPoolRef
  {
    if 1 <= i <= Length(p) && p.entries[i - 1].Some? then Ok(p.entries[i - 1].value)
    else Err(BadPoolRef)
  }

  /** `constantpool_add`: store `e` at a 1-based index. */
  function Add(p: Pool, i: nat, e: Entry): (r: Result<Pool>)
    ensures r.Ok? <==> 1 <= i <= Length(p)
    ensures r.Ok? ==> Length(r.value) == Length(p)
    ensures r.Err? ==> r.fault == BadPoolRef
  {
    if 1 <= i <= Length(p) then Ok(Pool(p.entries[i - 1 := Some(e)])) else Err(BadPoolRef)
  }

  /** Read-your-write: the added entry is found at its index and every
      other index reads as before. */
  lemma AddThenGet(p: Pool, i: nat, e: Entry, j: nat)
    requires Add(p, i, e).Ok?
    ensures Get(Add(p, i, e).value, i) == Ok(e)
    ensures j != i ==> Get(Add(p, i, e).value, j) == Get(p, j)
  {
  }

  // ---------------------------------------------------------------------
  // Shape: everything but the vtables, which the pass fills in

  predicate IsClass(p: Pool, c: nat) {
    1 <= c <= Length(p) && p.entries[c - 1].Some? && p.entries[c - 1].value.Class?
  }

  function ClassAt(p: Pool, c: nat): (e: Entry)
    requires IsClass(p, c)
    ensures e.Class?
  {
    p.entries[c - 1].value
  }

  /** Entry `j` is a method declared for class `c`. */
  predicate MethodOf(p: Pool, j: nat, c: nat) {
    1 <= j <= Length(p) && p.entries[j - 1].Some? && p.entries[j - 1].value.Method?
    && p.entries[j - 1].value.owner == c
  }

  function Bare(o: Option<Entry>): Option<Entry> {
    match o
    case Some(Class(name, parent, fields, methods, _)) => Some(Class(name, parent, fields, methods, None))
    case _ => o
  }

  predicate SameShape(p: Pool, q: Pool) {
    |p.entries| == |q.entries| && forall k :: 0 <= k < |p.entries| ==> Bare(p.entries[k]) == Bare(q.entries[k])
  }

  lemma ShapeFacts(p: Pool, q: Pool, j: nat, c: nat)
    requires SameShape(p, q)
    ensures IsClass(p, j) <==> IsClass(q, j)
    ensures IsClass(p, j) ==>
      ClassAt(p, j).parent == ClassAt(q, j).parent && ClassAt(p, j).methods == ClassAt(q, j).methods
    ensures MethodOf(p, j, c) <==> MethodOf(q, j, c)
    ensures 1 <= j <= Length(p) && p.entries[j - 1].Some? && p.entries[j - 1].value.Method?
      ==> p.entries[j - 1] == q.entries[j - 1]
  {
    if 1 <= j <= Length(p) {
      assert Bare(p.entries[j - 1]) == Bare(q.entries[j - 1]);
    }
  }

  // ---------------------------------------------------------------------
  // The order the pass depends on

  /** Entry `j` refers only backwards, and only to classes: a class's
      parent (when it has one) and a method's owner are classes the pass has
      already visited. */
  predicate RefsBack(p: Pool, j: nat)
    requires 1 <= j <= Length(p)
  {
    match p.entries[j - 1]
    case Some(Class(_, parent, _, _, _)) => parent != 0 ==> parent < j && IsClass(p, parent)
    case Some(Method(_, owner, _, _, _)) => 1 <= owner < j && IsClass(p, owner)
    case _ => true
  }

  predicate WellOrdered(p: Pool) {
    forall j :: 1 <= j <= Length(p) ==> RefsBack(p, j)
  }

  lemma ShapeRefs(p: Pool, q: Pool, j: nat)
    requires SameShape(p, q) && 1 <= j <= Length(p)
    ensures RefsBack(p, j) <==> RefsBack(q, j)
  {
    assert Bare(p.entries[j - 1]) == Bare(q.entries[j - 1]);
    match p.entries[j - 1]
    case Some(Class(_, parent, _, _, _)) => ShapeFacts(p, q, parent, 0);
    case Some(Method(_, owner, _, _, _)) => ShapeFacts(p, q, owner, 0);
    case _ =>
  }

  // ---------------------------------------------------------------------
  // What each class's vtable should bind

  /** The methods among entries `1..i` declared for class `c`, in pool order. */
  function Declared(p: Pool, c: nat, i: nat): (es: seq<VTables.Entry>)
    requires i <= Length(p)
    ensures forall k :: 0 <= k < |es| ==> VTables.Occupied(es[k])
  {
    if i == 0 then []
    else Declared(p, c, i - 1) + (if MethodOf(p, i, c) then [VTables.Entry(p.entries[i - 1].value.name, i)] else [])
  }

  /** The bindings of class `c` once entries `1..i` are visited: what it
      copied from its parent when the pass reached it, then its own methods;
      a later binding of a name overrides an earlier one. */
  function Resolved(p: Pool, c: nat, i: nat): (es: seq<VTables.Entry>)
    requires WellOrdered(p) && IsClass(p, c) && i <= Length(p)
    ensures forall k :: 0 <= k < |es| ==> VTables.Occupied(es[k])
    decreases c
  {
    Inherited(p, c) + Declared(p, c, i)
  }

  /** What class `c` copies from its parent: the parent's bindings as they
      stand when the pass reaches `c`. */
  function Inherited(p: Pool, c: nat): (es: seq<VTables.Entry>)
    requires WellOrdered(p) && IsClass(p, c)
    ensures forall k :: 0 <= k < |es| ==> VTables.Occupied(es[k])
    decreases c, 0
  {
    var parent := ClassAt(p, c).parent;
    assert RefsBack(p, c);
    if parent == 0 then [] else Resolved(p, parent, c - 1)
  }

  /** Visiting entry `i` adds to class `c`'s bindings exactly when entry
      `i` is one of its methods. */
  lemma ResolvedStep(p: Pool, c: nat, i: nat)
    requires WellOrdered(p) && IsClass(p, c) && 1 <= i <= Length(p)
    ensures MethodOf(p, i, c) ==>
      Resolved(p, c, i) == Resolved(p, c, i - 1) + [VTables.Entry(p.entries[i - 1].value.name, i)]
    ensures !MethodOf(p, i, c) ==> Resolved(p, c, i) == Resolved(p, c, i - 1)
  {
    if MethodOf(p, i, c) {
      var e := VTables.Entry(p.entries[i - 1].value.name, i);
      assert Declared(p, c, i) == Declared(p, c, i - 1) + [e];
      assert Inherited(p, c) + (Declared(p, c, i - 1) + [e]) == (Inherited(p, c) + Declared(p, c, i - 1)) + [e];
    } else {
      assert Declared(p, c, i) == Declared(p, c, i - 1) + [];
    }
  }

  /** No method precedes its class, so a class has no own bindings yet
      when the pass reaches it. */
  lemma {:induction false} NothingDeclaredBefore(p: Pool, c: nat, i: nat)
    requires WellOrdered(p) && i <= c && i <= Length(p)
    ensures Declared(p, c, i) == []
  {
    if i > 0 {
      NothingDeclaredBefore(p, c, i - 1);
      assert RefsBack(p, i);
    }
  }

  /** Bindings only accumulate as the pass goes on. */
  lemma {:induction false} ResolvedGrows(p: Pool, c: nat, i: nat, j: nat)
    requires WellOrdered(p) && IsClass(p, c) && i <= j <= Length(p)
    ensures VTables.Names(Resolved(p, c, i)) <= VTables.Names(Resolved(p, c, j))
    decreases j
  {
    if i < j {
      ResolvedGrows(p, c, i, j - 1);
      ResolvedStep(p, c, j);
      var a := Resolved(p, c, j - 1);
      if MethodOf(p, j, c) {
        var e := VTables.Entry(p.entries[j - 1].value.name, j);
        forall n | n in VTables.Names(a) ensures n in VTables.Names(a + [e]) {
          var k :| 0 <= k < |a| && a[k].name == n;
          assert (a + [e])[k] == a[k];
        }
      }
    }
  }

  /** Each class's own bindings win; names it does not declare resolve
      as they did in the parent. Applied up the chain, a name resolves to
      its nearest declaration. */
  lemma OwnBindingsWin(p: Pool, c: nat, i: nat, name: string)
    requires WellOrdered(p) && IsClass(p, c) && i <= Length(p)
    ensures VTables.Find(Resolved(p, c, i), name)
      == VTables.Overlay(VTables.Find(Inherited(p, c), name), VTables.Find(Declared(p, c, i), name))
  {
    VTables.FindAppend(Inherited(p, c), Declared(p, c, i), name);
  }

  // ---------------------------------------------------------------------
  // constantpool_compute_vtables

  /** The vtable of class `c`, provided `c` is a class the pass has already
      visited on its way to entry `i`. */
  function TableOf(q: Pool, c: nat, i: nat): (r: Result<VTables.VTable>)
    ensures r.Ok? ==> 1 <= c < i && IsClass(q, c) && ClassAt(q, c).vtable == Some(r.value)
    ensures r.Err? ==> r.fault == BadPoolRef
  {
    if 1 <= c < i && IsClass(q, c) && q.entries[c - 1].value.vtable.Some? then
      Ok(q.entries[c - 1].value.vtable.value)
    else Err(BadPoolRef)
  }

  function SetTable(q: Pool, c: nat, t: VTables.VTable): (r: Pool)
    requires IsClass(q, c)
    ensures SameShape(q, r)
    ensures IsClass(r, c) && ClassAt(r, c).vtable == Some(t)
    ensures forall k :: 0 <= k < |q.entries| && k != c - 1 ==> r.entries[k] == q.entries[k]
  {
    var e := ClassAt(q, c);
    var r := Pool(q.entries[c - 1 := Some(Class(e.name, e.parent, e.fields, e.methods, Some(t)))]);
    assert Bare(r.entries[c - 1]) == Bare(q.entries[c - 1]);
    r
  }

  /** The class whose vtable visiting entry `i` writes: the class itself,
      a method's owner, or none. */
  function Target(q: Pool, i: nat): nat
    requires 1 <= i <= Length(q)
  {
    match q.entries[i - 1]
    case Some(Class(_, _, _, _, _)) => i
    case Some(Method(_, owner, _, _, _)) => owner
    case _ => 0
  }

  /** One iteration of the pass. A class gets a blank table of twice its
      method count holding a copy of its parent's; a method is put into its
      owner's table under its name. A reference forward or to a non-class,
      and a table with no room, are faults (the source reads garbage or
      loops forever there). */
  function Visit(q: Pool, i: nat): (r: Result<Pool>)
    requires 1 <= i <= Length(q)
    ensures r.Ok? ==> SameShape(q, r.value)
    ensures r.Ok? ==> forall k :: 0 <= k < |q.entries| && k + 1 != Target(q, i) ==> r.value.entries[k] == q.entries[k]
    ensures r.Ok? ==> RefsBack(q, i)
    ensures r.Err? ==> r.fault == BadPoolRef || r.fault == TableFull
  {
    match q.entries[i - 1]
    case Some(Class(_, parent, _, methods, _)) =>
      var blank := VTables.New(2 * methods);
      if parent == 0 then Ok(SetTable(q, i, blank))
      else
        var inherited :- TableOf(q, parent, i);
        var t :- VTables.Copy(blank, inherited);
        Ok(SetTable(q, i, t))
    case Some(Method(name, owner, _, _, _)) =>
      var t :- TableOf(q, owner, i);
      if !(VTables.Has(t, name) || VTables.HasEmpty(t)) then Err(TableFull)
      else Ok(SetTable(q, owner, VTables.Put(t, name, i)))
    case _ => Ok(q)
  }

  /** Visit entries `i..Length` in order. */
  function Pass(q: Pool, i: nat): (r: Result<Pool>)
    requires 1 <= i <= Length(q) + 1
    ensures r.Ok? ==> SameShape(q, r.value)
    ensures r.Err? ==> r.fault == BadPoolRef || r.fault == TableFull
    decreases Length(q) + 1 - i
  {
    if i > Length(q) then Ok(q)
    else
      var q' :- Visit(q, i);
      Pass(q', i + 1)
  }

  /** `constantpool_compute_vtables`. */
  function ComputeVTables(p: Pool): (r: Result<Pool>)
    ensures r.Ok? ==> SameShape(p, r.value)
    ensures r.Err? ==> r.fault == BadPoolRef || r.fault == TableFull
  {
    Pass(p, 1)
  }

  // ---------------------------------------------------------------------
  // Correctness of the pass

  /** Class `c`'s table in `q` is valid, has the length the pass gave it,
      and binds exactly what `es` binds. */
  ghost predicate Agrees(q: Pool, c: nat, es: seq<VTables.Entry>)
    requires IsClass(q, c)
  {
    var v := ClassAt(q, c).vtable;
    && v.Some?
    && VTables.Valid(v.value)
    && |v.value.slots| == 2 * ClassAt(q, c).methods
    && forall n :: VTables.Lookup(v.value, n) == VTables.Find(es, n)
  }

  /** The state of the pass after visiting entries `1..i` of `p`. */
  ghost predicate Visited(p: Pool, q: Pool, i: nat)
    requires WellOrdered(p) && i <= Length(p)
  {
    SameShape(p, q) && forall c :: 1 <= c <= i && IsClass(p, c) ==> IsClass(q, c) && Agrees(q, c, Resolved(p, c, i))
  }

  /** Every name that fits: each class's final bindings fit in the table of
      twice its method count the pass allocates. */
  predicate Fits(p: Pool)
    requires WellOrdered(p)
  {
    forall c :: 1 <= c <= Length(p) && IsClass(p, c) ==> |VTables.Names(Resolved(p, c, Length(p)))| <= 2 * ClassAt(p, c).methods
  }

  /** A table whose lookups agree with a list of bindings has one slot in
      use per bound name. */
  lemma AgreeingSize(q: Pool, c: nat, es: seq<VTables.Entry>)
    requires IsClass(q, c) && Agrees(q, c, es)
    requires forall k :: 0 <= k < |es| ==> VTables.Occupied(es[k])
    ensures VTables.Size(ClassAt(q, c).vtable.value) == |VTables.Names(es)|
  {
    VTables.SizeOfAgreeing(ClassAt(q, c).vtable.value, es);
  }

  /** Visiting a class entry: its table is the parent's bindings copied
      into a blank table. */
  lemma {:induction false} VisitClassOwn(p: Pool, q: Pool, i: nat)
    requires WellOrdered(p) && 1 <= i <= Length(p) && Visited(p, q, i - 1) && IsClass(p, i)
    requires Visit(q, i).Ok?
    ensures IsClass(Visit(q, i).value, i) && Agrees(Visit(q, i).value, i, Resolved(p, i, i))
  {
    var r := Visit(q, i).value;
    ShapeFacts(p, q, i, 0);
    ShapeFacts(p, r, i, 0);
    var parent := ClassAt(q, i).parent;
    var methods := ClassAt(q, i).methods;
    var blank := VTables.New(2 * methods);
    NothingDeclaredBefore(p, i, i);
    assert Resolved(p, i, i) == Inherited(p, i);
    var t := ClassAt(r, i).vtable.value;
    if parent == 0 {
      assert t == blank;
      assert Inherited(p, i) == [];
    } else {
      assert RefsBack(p, i);
      var inherited := TableOf(q, parent, i).value;
      assert Agrees(q, parent, Resolved(p, parent, i - 1));
      assert Inherited(p, i) == Resolved(p, parent, i - 1);
      VTables.CopyEntriesLookup(blank, VTables.Entries(inherited.slots));
      assert t == VTables.Copy(blank, inherited).value;
      forall n ensures VTables.Lookup(t, n) == VTables.Find(Inherited(p, i), n) {
        assert VTables.Lookup(t, n) == VTables.Overlay(VTables.Lookup(blank, n), VTables.Lookup(inherited, n));
      }
    }
  }

  /** Visiting a class entry changes no other class's table. */
  lemma {:induction false} VisitClass(p: Pool, q: Pool, i: nat)
    requires WellOrdered(p) && 1 <= i <= Length(p) && Visited(p, q, i - 1) && IsClass(p, i)
    requires Visit(q, i).Ok?
    ensures Visited(p, Visit(q, i).value, i)
  {
    var r := Visit(q, i).value;
    VisitClassOwn(p, q, i);
    ShapeFacts(p, q, i, 0);
    forall c | 1 <= c <= i && IsClass(p, c)
      ensures IsClass(r, c) && Agrees(r, c, Resolved(p, c, i))
    {
      ShapeFacts(p, r, c, 0);
      if c != i {
        ResolvedStep(p, c, i);
        assert r.entries[c - 1] == q.entries[c - 1];
      }
    }
  }

  /** Visiting a method entry: its owner's table gains the binding, every
      other table is untouched. */
  lemma {:induction false} VisitMethod(p: Pool, q: Pool, i: nat)
    requires WellOrdered(p) && 1 <= i <= Length(p) && Visited(p, q, i - 1)
    requires p.entries[i - 1].Some? && p.entries[i - 1].value.Method?
    requires Visit(q, i).Ok?
    ensures Visited(p, Visit(q, i).value, i)
  {
    var r := Visit(q, i).value;
    ShapeFacts(p, q, i, 0);
    var m := p.entries[i - 1].value;
    assert q.entries[i - 1] == Some(m);
    var owner := m.owner;
    assert RefsBack(p, i);
    var t := TableOf(q, owner, i).value;
    assert Agrees(q, owner, Resolved(p, owner, i - 1));
    VTables.PutSpec(t, m.name, i);
    var t' := VTables.Put(t, m.name, i);
    assert ClassAt(r, owner).vtable == Some(t');
    forall c | 1 <= c <= i && IsClass(p, c)
      ensures IsClass(r, c) && Agrees(r, c, Resolved(p, c, i))
    {
      ShapeFacts(p, r, c, 0);
      ShapeFacts(p, q, c, 0);
      ResolvedStep(p, c, i);
      if c == owner {
        assert MethodOf(p, i, c);
        var es := Resolved(p, c, i - 1);
        forall n ensures VTables.Lookup(t', n) == VTables.Find(Resolved(p, c, i), n) {
          VTables.FindSnoc(es, VTables.Entry(m.name, i), n);
        }
      } else {
        assert !MethodOf(p, i, c);
        assert c != i;
        assert r.entries[c - 1] == q.entries[c - 1];
      }
    }
  }

  /** One visit keeps the pass state in step with the reference bindings. */
  lemma {:induction false} VisitSpec(p: Pool, q: Pool, i: nat)
    requires WellOrdered(p) && 1 <= i <= Length(p) && Visited(p, q, i - 1)
    requires Visit(q, i).Ok?
    ensures Visited(p, Visit(q, i).value, i)
  {
    var r := Visit(q, i).value;
    ShapeFacts(p, q, i, 0);
    if IsClass(p, i) {
      VisitClass(p, q, i);
    } else if p.entries[i - 1].Some? && p.entries[i - 1].value.Method? {
      VisitMethod(p, q, i);
    } else {
      assert r == q;
      forall c | 1 <= c <= i && IsClass(p, c)
        ensures IsClass(r, c) && Agrees(r, c, Resolved(p, c, i))
      {
        ResolvedStep(p, c, i);
      }
    }
  }

  /** When every class's bindings fit, no visit fails. */
  lemma {:induction false} VisitSucceeds(p: Pool, q: Pool, i: nat)
    requires WellOrdered(p) && Fits(p) && 1 <= i <= Length(p) && Visited(p, q, i - 1)
    ensures Visit(q, i).Ok?
  {
    ShapeFacts(p, q, i, 0);
    if IsClass(p, i) {
      VisitClassSucceeds(p, q, i);
    } else if q.entries[i - 1].Some? && q.entries[i - 1].value.Method? {
      VisitMethodSucceeds(p, q, i);
    }
  }

  /** The parent's bindings fit the new table: they are among the
      class's own final bindings. */
  lemma {:induction false} VisitClassSucceeds(p: Pool, q: Pool, i: nat)
    requires WellOrdered(p) && Fits(p) && 1 <= i <= Length(p) && Visited(p, q, i - 1)
    requires IsClass(p, i)
    ensures Visit(q, i).Ok?
  {
    ShapeFacts(p, q, i, 0);
    assert RefsBack(p, i);
    var parent := ClassAt(q, i).parent;
    var methods := ClassAt(q, i).methods;
    if parent != 0 {
      ShapeFacts(p, q, parent, 0);
      assert Agrees(q, parent, Resolved(p, parent, i - 1));
      var inherited := TableOf(q, parent, i).value;
      AgreeingSize(q, parent, Resolved(p, parent, i - 1));
      assert Inherited(p, i) == Resolved(p, parent, i - 1);
      NothingDeclaredBefore(p, i, i);
      assert Resolved(p, i, i) == Inherited(p, i) + [];
      assert Resolved(p, i, i) == Inherited(p, i);
      ResolvedGrows(p, i, i, Length(p));
      SubsetSize(VTables.Names(Inherited(p, i)), VTables.Names(Resolved(p, i, Length(p))));
      assert VTables.Size(inherited) <= 2 * methods;
      VTables.CopyIntoEmpty(VTables.New(2 * methods), inherited);
    }
  }

  /** A method's name is either bound already or one of its owner's final
      bindings not yet placed, so its owner's table has a free slot. */
  lemma {:induction false} VisitMethodSucceeds(p: Pool, q: Pool, i: nat)
    requires WellOrdered(p) && Fits(p) && 1 <= i <= Length(p) && Visited(p, q, i - 1)
    requires q.entries[i - 1].Some? && q.entries[i - 1].value.Method?
    ensures Visit(q, i).Ok?
  {
    ShapeFacts(p, q, i, 0);
    assert RefsBack(p, i);
    var name := q.entries[i - 1].value.name;
    var owner := q.entries[i - 1].value.owner;
    ShapeFacts(p, q, owner, 0);
    assert Agrees(q, owner, Resolved(p, owner, i - 1));
    var t := TableOf(q, owner, i).value;
    VTables.LookupIffHas(t, name);
    if VTables.Lookup(t, name) == 0 {
      var es := Resolved(p, owner, i - 1);
      AgreeingSize(q, owner, es);
      VTables.FindIffNamed(es, name);
      assert MethodOf(p, i, owner);
      ResolvedStep(p, owner, i);
      var e := VTables.Entry(name, i);
      assert Resolved(p, owner, i) == es + [e];
      VTables.NamesSnoc(es, e);
      ResolvedGrows(p, owner, i, Length(p));
      SubsetSize(VTables.Names(es + [e]), VTables.Names(Resolved(p, owner, Length(p))));
      assert VTables.Size(t) < |t.slots|;
      VTables.RoomIffEmptySlot(t.slots);
    }
  }

  lemma SubsetSize<T>(a: set<T>, b: set<T>)
    requires a <= b
    ensures |a| <= |b|
  {
    assert b == a + (b - a);
  }

  lemma {:induction false} PassAgrees(p: Pool, q: Pool, i: nat)
    requires WellOrdered(p) && 1 <= i <= Length(p) + 1 && Visited(p, q, i - 1)
    requires Pass(q, i).Ok?
    ensures Visited(p, Pass(q, i).value, Length(p))
    decreases Length(p) + 1 - i
  {
    if i <= Length(p) {
      VisitSpec(p, q, i);
      PassAgrees(p, Visit(q, i).value, i + 1);
    }
  }

  lemma {:induction false} PassSucceeds(p: Pool, q: Pool, i: nat)
    requires WellOrdered(p) && Fits(p) && 1 <= i <= Length(p) + 1 && Visited(p, q, i - 1)
    ensures Pass(q, i).Ok?
    decreases Length(p) + 1 - i
  {
    if i <= Length(p) {
      VisitSucceeds(p, q, i);
      VisitSpec(p, q, i);
      var q' := Visit(q, i).value;
      PassSucceeds(p, q', i + 1);
      assert Pass(q, i) == Pass(q', i + 1);
    }
  }

  lemma {:induction false} PassRefsBack(q: Pool, i: nat)
    requires 1 <= i <= Length(q) + 1
    requires Pass(q, i).Ok?
    ensures forall j :: i <= j <= Length(q) ==> RefsBack(q, j)
    decreases Length(q) + 1 - i
  {
    if i <= Length(q) {
      var q' := Visit(q, i).value;
      PassRefsBack(q', i + 1);
      forall j | i < j <= Length(q) ensures RefsBack(q, j) {
        ShapeRefs(q, q', j);
      }
    }
  }

  /** The pass succeeds exactly on a well-ordered pool whose classes'
      bindings fit their tables; then every class's table is valid and
      binds each name to the nearest declaration of it, and holds one
      slot per name. */
  lemma ComputeVTablesSpec(p: Pool)
    ensures ComputeVTables(p).Ok? <==> WellOrdered(p) && Fits(p)
    ensures ComputeVTables(p).Ok? ==> forall c :: IsClass(p, c) ==>
      var t := ClassAt(ComputeVTables(p).value, c).vtable;
      && t.Some? && VTables.Valid(t.value)
      && (forall n :: VTables.Lookup(t.value, n) == VTables.Find(Resolved(p, c, Length(p)), n))
      && VTables.Size(t.value) == |VTables.Names(Resolved(p, c, Length(p)))|
  {
    if ComputeVTables(p).Ok? {
      PassRefsBack(p, 1);
    }
    if WellOrdered(p) {
      if Fits(p) {
        PassSucceeds(p, p, 1);
      }
      if ComputeVTables(p).Ok? {
        PassAgrees(p, p, 1);
        var r := ComputeVTables(p).value;
        forall c | IsClass(p, c) ensures IsClass(r, c) && |VTables.Names(Resolved(p, c, Length(p)))| <= 2 * ClassAt(p, c).methods
          && VTables.Size(ClassAt(r, c).vtable.value) == |VTables.Names(Resolved(p, c, Length(p)))|
        {
          ShapeFacts(p, r, c, 0);
          AgreeingSize(r, c, Resolved(p, c, Length(p)));
        }
      }
    }
  }

  /** The table class `c` ends up with after a successful pass over `p`. */
  function TableAfter(p: Pool, c: nat): VTables.VTable
    requires ComputeVTables(p).Ok? && IsClass(p, c)
  {
    ShapeFacts(p, ComputeVTables(p).value, c, 0);
    var v := ClassAt(ComputeVTables(p).value, c).vtable;
    if v.Some? then v.value else VTables.New(0)
  }

  /** After the pass, `vtable_get` and `vtable_size` on a class's table
      answer from its reference bindings. */
  lemma GetAfterPass(p: Pool, c: nat, name: string)
    requires ComputeVTables(p).Ok? && IsClass(p, c)
    ensures WellOrdered(p)
    ensures VTables.Get(TableAfter(p, c), name) == VTables.Find(Resolved(p, c, Length(p)), name)
    ensures VTables.Size(TableAfter(p, c)) == |VTables.Names(Resolved(p, c, Length(p)))|
  {
    ComputeVTablesSpec(p);
    VTables.GetIsLookup(TableAfter(p, c), name);
  }
}
