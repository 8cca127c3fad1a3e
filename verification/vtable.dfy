/** A class's virtual-method table (vtable.c): a fixed-length
    open-addressed hash table from method name to the pool index of the
    method's definition, with linear probing. The table is allocated
    zero-filled, so a slot whose index is 0 is empty; pool indices start at
    1, so a stored index is never 0.

    The reference meaning of a table is `Lookup`: the occupied slots read
    in order as a list of entries, later entries winning. Every probing
    operation is proved to agree with it on tables that keep `Valid`. */
module VTables {
  import opened Results

  datatype Entry = Entry(name: string, index: nat)

  datatype VTable = VTable(slots: seq<Entry>)

  const EmptySlot: Entry := Entry("", 0)

  predicate Occupied(e: Entry) {
    e.index != 0
  }

  // ---------------------------------------------------------------------
  // Reference meaning

  /** The occupied slots, in slot order. */
  function Entries(s: seq<Entry>): (es: seq<Entry>)
    ensures |es| <= |s|
    ensures forall e :: e in es ==> e in s && Occupied(e)
  {
    if |s| == 0 then []
    else Entries(s[..|s| - 1]) + (if Occupied(s[|s| - 1]) then [s[|s| - 1]] else [])
  }

  /** The index a list of entries gives `name`: the last entry with that
      name wins; 0 when there is none. */
  function Find(es: seq<Entry>, name: string): nat {
    if |es| == 0 then 0
    else if es[|es| - 1].name == name then es[|es| - 1].index
    else Find(es[..|es| - 1], name)
  }

  function Lookup(t: VTable, name: string): nat {
    Find(Entries(t.slots), name)
  }

  /** `vtable_size`: the number of occupied slots. */
  function Size(t: VTable): (n: nat)
    ensures n <= |t.slots|
  {
    |Entries(t.slots)|
  }

  /** The names a list of entries binds. */
  function Names(es: seq<Entry>): set<string> {
    set k | 0 <= k < |es| :: es[k].name
  }

  /** The names a table binds. */
  function Keys(t: VTable): set<string> {
    Names(Entries(t.slots))
  }

  predicate Has(t: VTable, name: string) {
    exists j :: 0 <= j < |t.slots| && Occupied(t.slots[j]) && t.slots[j].name == name
  }

  predicate HasEmpty(t: VTable) {
    exists j :: 0 <= j < |t.slots| && !Occupied(t.slots[j])
  }

  // ---------------------------------------------------------------------
  // Hashing and probing

  function Pow31(e: nat): nat {
    if e == 0 then 1 else 31 * Pow31(e - 1)
  }

  /** The sum `vtable_hash` accumulates: each character code times 31 to
      the power of the number of characters after it. */
  function HashSum(s: string): nat {
    if |s| == 0 then 0 else (s[0] as int) * Pow31(|s| - 1) + HashSum(s[1..])
  }

  /** Java's `String.hashCode` recurrence `h = 31 * h + c`, before any 32-bit wrap. */
  function Horner(s: string): nat {
    if |s| == 0 then 0 else Horner(s[..|s| - 1]) * 31 + (s[|s| - 1] as int)
  }

  /** `vtable_hash`: the home slot of a name. */
  function Hash(name: string, length: nat): (h: nat)
    requires length > 0
    ensures h < length
  {
    HashSum(name) % length
  }

  /** The slot reached after `d` probe steps from slot `h`: every step moves
      one slot on, from the last slot back to the first. */
  function Wrap(h: nat, d: nat, length: nat): (i: nat)
    requires h < length && d < length
    ensures i < length
  {
    if h + d < length then h + d else h + d - length
  }

  /** The number of probe steps from slot `h` to slot `j`. */
  function Dist(h: nat, j: nat, length: nat): (d: nat)
    requires h < length && j < length
    ensures d < length && Wrap(h, d, length) == j
  {
    if h <= j then j - h else j + length - h
  }

  /** The slot probed `d` steps into the search for `name`. */
  function At(t: VTable, name: string, d: nat): (i: nat)
    requires d < |t.slots|
    ensures i < |t.slots|
  {
    Wrap(Hash(name, |t.slots|), d, |t.slots|)
  }

  /** No two occupied slots carry the same name. */
  predicate Unique(s: seq<Entry>) {
    forall i, j :: 0 <= i < j < |s| && Occupied(s[i]) && Occupied(s[j]) ==> s[i].name != s[j].name
  }

  /** Every occupied slot is reached from its name's home slot through
      occupied slots only, so a probe that meets an empty slot may stop. */
  predicate Clustered(t: VTable) {
    forall j, d: nat :: 0 <= j < |t.slots| && Occupied(t.slots[j])
      && d < Dist(Hash(t.slots[j].name, |t.slots|), j, |t.slots|)
      ==> Occupied(t.slots[At(t, t.slots[j].name, d)])
  }

  predicate Valid(t: VTable) {
    Unique(t.slots) && Clustered(t)
  }

  /** Where a probe stops: at the slot holding the name, at an empty slot,
      or after visiting every slot (the source would loop forever there). */
  datatype Probed = Found(offset: nat) | Vacant(offset: nat) | Exhausted

  function Stop(p: Probed, length: nat): nat {
    if p.Exhausted? then length else p.offset
  }

  /** The probe loop shared by `vtable_get`, `vtable_exists` and the
      corrected `vtable_put`, from step `d` on. */
  function Probe(t: VTable, name: string, d: nat): (p: Probed)
    requires d <= |t.slots|
    ensures p.Found? ==> (d <= p.offset < |t.slots|
                          && Occupied(t.slots[At(t, name, p.offset)])
                          && t.slots[At(t, name, p.offset)].name == name)
    ensures p.Vacant? ==> d <= p.offset < |t.slots| && !Occupied(t.slots[At(t, name, p.offset)])
    ensures forall e :: d <= e < Stop(p, |t.slots|) ==>
      Occupied(t.slots[At(t, name, e)]) && t.slots[At(t, name, e)].name != name
    decreases |t.slots| - d
  {
    if d == |t.slots| then Exhausted
    else
      var e := t.slots[At(t, name, d)];
      if !Occupied(e) then Vacant(d)
      else if e.name == name then Found(d)
      else Probe(t, name, d + 1)
  }

  // ---------------------------------------------------------------------
  // Operations

  /** `vtable_new`: `length` empty slots. */
  function New(length: nat): (t: VTable)
    ensures |t.slots| == length
    ensures Valid(t) && Size(t) == 0
    ensures forall n :: Lookup(t, n) == 0
  {
    var t := VTable(seq(length, _ => EmptySlot));
    NoEntries(t.slots);
    t
  }

  /** `vtable_get`: the index stored under `name`, 0 when absent. The
      source terminates only when the name is present or some slot is
      empty; on a full table without the name the model answers 0 where the
      source loops forever. */
  function Get(t: VTable, name: string): (k: nat)
    ensures k != 0 ==> Has(t, name)
  {
    match Probe(t, name, 0)
    case Found(o) => t.slots[At(t, name, o)].index
    case _ => 0
  }

  /** `vtable_exists`. */
  function Exists(t: VTable, name: string): (b: bool)
    ensures b ==> Has(t, name)
  {
    Probe(t, name, 0).Found?
  }

  /** `vtable_put` as it is meant to work: insert, or overwrite the slot
      that already holds `name`. At most one slot changes, and it then holds
      the new entry. A full table without the name is left as it is, where
      the source loops forever. */
  function Put(t: VTable, name: string, k: nat): (r: VTable)
    ensures |r.slots| == |t.slots|
    ensures forall j :: 0 <= j < |t.slots| && r.slots[j] != t.slots[j] ==> r.slots[j] == Entry(name, k)
  {
    match Probe(t, name, 0)
    case Exhausted => t
    case _ => VTable(t.slots[At(t, name, Probe(t, name, 0).offset) := Entry(name, k)])
  }

  /** Insert a list of entries in order; `TableFull` where the source would
      loop forever looking for a free slot. */
  function CopyEntries(dest: VTable, es: seq<Entry>): (r: Result<VTable>)
    requires forall k :: 0 <= k < |es| ==> Occupied(es[k])
    ensures r.Ok? ==> |r.value.slots| == |dest.slots|
    ensures r.Err? ==> r.fault == TableFull
    decreases |es|
  {
    if |es| == 0 then Ok(dest)
    else if !(Has(dest, es[0].name) || HasEmpty(dest)) then Err(TableFull)
    else CopyEntries(Put(dest, es[0].name, es[0].index), es[1..])
  }

  /** `vtable_copy`: put every occupied slot of `src` into `dest`. */
  function Copy(dest: VTable, src: VTable): (r: Result<VTable>)
    ensures r.Ok? ==> |r.value.slots| == |dest.slots|
    ensures r.Err? ==> r.fault == TableFull
  {
    CopyEntries(dest, Entries(src.slots))
  }

  /** What a copy leaves under a name: the copied entry if there is one,
      otherwise what `dest` had. */
  function Overlay(below: nat, above: nat): nat {
    if above != 0 then above else below
  }

  // ---------------------------------------------------------------------
  // Lemmas about the reference meaning

  lemma {:induction false} NoEntries(s: seq<Entry>)
    requires forall j :: 0 <= j < |s| ==> !Occupied(s[j])
    ensures Entries(s) == []
    decreases |s|
  {
    if |s| > 0 {
      NoEntries(s[..|s| - 1]);
    }
  }

  /** One more slot adds its entry if it is occupied. */
  lemma EntriesSnoc(s: seq<Entry>, e: Entry)
    ensures Entries(s + [e]) == Entries(s) + (if Occupied(e) then [e] else [])
  {
    assert (s + [e])[..|s|] == s;
  }

  lemma {:induction false} UniquePrefix(s: seq<Entry>, m: nat)
    requires Unique(s) && m <= |s|
    ensures Unique(s[..m])
  {
    var p := s[..m];
    assert forall i :: 0 <= i < m ==> p[i] == s[i];
  }

  /** The entry in an occupied slot is what the table gives its name. */
  lemma {:induction false} FindOccupied(s: seq<Entry>, j: nat)
    requires Unique(s) && j < |s| && Occupied(s[j])
    ensures Find(Entries(s), s[j].name) == s[j].index
    decreases |s|
  {
    var p := s[..|s| - 1];
    var last := s[|s| - 1];
    if j == |s| - 1 {
      assert Entries(s) == Entries(p) + [last];
    } else {
      assert p[j] == s[j];
      UniquePrefix(s, |s| - 1);
      FindOccupied(p, j);
      if Occupied(last) {
        assert last.name != s[j].name;
        var es := Entries(p) + [last];
        assert Entries(s) == es;
        assert es[..|es| - 1] == Entries(p);
        assert Find(es, s[j].name) == Find(Entries(p), s[j].name);
      } else {
        assert Entries(s) == Entries(p) + [];
        assert Entries(s) == Entries(p);
      }
    }
  }

  /** A name in no occupied slot is given 0. */
  lemma {:induction false} FindAbsent(s: seq<Entry>, name: string)
    requires forall j :: 0 <= j < |s| && Occupied(s[j]) ==> s[j].name != name
    ensures Find(Entries(s), name) == 0
    decreases |s|
  {
    if |s| > 0 {
      var p := s[..|s| - 1];
      assert forall j :: 0 <= j < |p| ==> p[j] == s[j];
      FindAbsent(p, name);
      if Occupied(s[|s| - 1]) {
        assert s[|s| - 1].name != name;
        var es := Entries(p) + [s[|s| - 1]];
        assert Entries(s) == es;
        assert es[..|es| - 1] == Entries(p);
        assert Find(es, name) == Find(Entries(p), name);
      } else {
        assert Entries(s) == Entries(p) + [];
        assert Entries(s) == Entries(p);
      }
    }
  }

  /** On a table without duplicate names, the reference lookup finds a name
      exactly when an occupied slot carries it. */
  lemma {:induction false} LookupIffHas(t: VTable, name: string)
    requires Unique(t.slots)
    ensures Lookup(t, name) != 0 <==> Has(t, name)
  {
    if Has(t, name) {
      var j :| 0 <= j < |t.slots| && Occupied(t.slots[j]) && t.slots[j].name == name;
      FindOccupied(t.slots, j);
    } else {
      FindAbsent(t.slots, name);
    }
  }

  /** Two tables that differ in one slot, neither copy of which holds
      `name`, agree on `name`. */
  lemma {:induction false} LookupFrame(s: seq<Entry>, s': seq<Entry>, i: nat, name: string)
    requires Unique(s) && Unique(s') && |s| == |s'| && i < |s|
    requires forall j :: 0 <= j < |s| && j != i ==> s'[j] == s[j]
    requires !(Occupied(s[i]) && s[i].name == name) && !(Occupied(s'[i]) && s'[i].name == name)
    ensures Find(Entries(s'), name) == Find(Entries(s), name)
  {
    if j :| 0 <= j < |s| && Occupied(s[j]) && s[j].name == name {
      FindOccupied(s, j);
      FindOccupied(s', j);
    } else {
      FindAbsent(s, name);
      FindAbsent(s', name);
    }
  }

  /** Filling an empty slot adds one entry; overwriting an occupied one adds none. */
  lemma {:induction false} SizeAfterWrite(s: seq<Entry>, i: nat, e: Entry)
    requires i < |s| && Occupied(e)
    ensures |Entries(s[i := e])| == |Entries(s)| + (if Occupied(s[i]) then 0 else 1)
    decreases |s|
  {
    var s' := s[i := e];
    if i == |s| - 1 {
      assert s'[..|s| - 1] == s[..|s| - 1];
    } else {
      assert s'[..|s| - 1] == s[..|s| - 1][i := e];
      SizeAfterWrite(s[..|s| - 1], i, e);
    }
  }

  /** A table has an empty slot exactly when it has fewer entries than slots. */
  lemma {:induction false} RoomIffEmptySlot(s: seq<Entry>)
    ensures (exists j :: 0 <= j < |s| && !Occupied(s[j])) <==> |Entries(s)| < |s|
    decreases |s|
  {
    if |s| > 0 {
      var p := s[..|s| - 1];
      RoomIffEmptySlot(p);
      assert forall j :: 0 <= j < |p| ==> p[j] == s[j];
      if exists j :: 0 <= j < |p| && !Occupied(p[j]) {
        var j :| 0 <= j < |p| && !Occupied(p[j]);
        assert !Occupied(s[j]);
      }
    }
  }

  predicate DistinctNames(es: seq<Entry>) {
    forall i, j :: 0 <= i < j < |es| ==> es[i].name != es[j].name
  }

  /** The entries of a table without duplicate names have distinct names. */
  lemma {:induction false} EntriesDistinct(s: seq<Entry>)
    requires Unique(s)
    ensures DistinctNames(Entries(s))
    decreases |s|
  {
    if |s| > 0 {
      var p := s[..|s| - 1];
      var last := s[|s| - 1];
      UniquePrefix(s, |s| - 1);
      EntriesDistinct(p);
      if Occupied(last) {
        var es := Entries(p);
        forall k | 0 <= k < |es| ensures es[k].name != last.name {
          assert es[k] in p;
          var j :| 0 <= j < |p| && p[j] == es[k];
          assert s[j] == es[k];
        }
      }
    }
  }

  /** With distinct names, a list of entries binds as many names as it has entries. */
  lemma {:induction false} NamesCount(es: seq<Entry>)
    requires DistinctNames(es)
    ensures |Names(es)| == |es|
    decreases |es|
  {
    if |es| > 0 {
      var p := es[..|es| - 1];
      NamesCount(p);
      assert Names(es) == Names(p) + {es[|es| - 1].name};
      assert es[|es| - 1].name !in Names(p);
    }
  }

  /** With every index non-zero, a list of entries gives a name a non-zero
      index exactly when the name is bound. */
  lemma {:induction false} FindIffNamed(es: seq<Entry>, name: string)
    requires forall k :: 0 <= k < |es| ==> Occupied(es[k])
    ensures Find(es, name) != 0 <==> name in Names(es)
    decreases |es|
  {
    if |es| > 0 {
      var p := es[..|es| - 1];
      FindIffNamed(p, name);
      assert Names(es) == Names(p) + {es[|es| - 1].name};
    }
  }

  /** The number of entries is the number of names bound, and the names
      bound are those the lookup finds. */
  lemma {:induction false} SizeIsKeyCount(t: VTable)
    requires Unique(t.slots)
    ensures Size(t) == |Keys(t)|
    ensures forall n :: n in Keys(t) <==> Lookup(t, n) != 0
  {
    var es := Entries(t.slots);
    EntriesDistinct(t.slots);
    NamesCount(es);
    forall n ensures n in Keys(t) <==> Lookup(t, n) != 0 {
      FindIffNamed(es, n);
    }
  }

  /** Appending one entry: it wins for its own name only. */
  lemma {:induction false} FindSnoc(es: seq<Entry>, e: Entry, name: string)
    ensures Find(es + [e], name) == if e.name == name then e.index else Find(es, name)
  {
    assert (es + [e])[..|es|] == es;
  }

  /** Later lists win over earlier ones. */
  lemma {:induction false} FindAppend(a: seq<Entry>, b: seq<Entry>, name: string)
    requires forall k :: 0 <= k < |b| ==> Occupied(b[k])
    ensures Find(a + b, name) == Overlay(Find(a, name), Find(b, name))
    decreases |b|
  {
    if |b| > 0 {
      var b' := b[..|b| - 1];
      var e := b[|b| - 1];
      assert a + b == (a + b') + [e];
      assert b == b' + [e];
      assert Occupied(e);
      FindSnoc(a + b', e, name);
      FindSnoc(b', e, name);
      FindAppend(a, b', name);
      assert Find(a + b, name) == Find((a + b') + [e], name);
      assert Find(b, name) == Find(b' + [e], name);
    } else {
      assert a + b == a;
    }
  }

  lemma NamesSnoc(es: seq<Entry>, e: Entry)
    ensures Names(es + [e]) == Names(es) + {e.name}
  {
    forall n | n in Names(es) ensures n in Names(es + [e]) {
      var k :| 0 <= k < |es| && es[k].name == n;
      assert (es + [e])[k] == es[k];
    }
    assert (es + [e])[|es|] == e;
  }

  /** A table that agrees with a list of entries on every name has one
      slot per name the list binds. */
  lemma {:induction false} SizeOfAgreeing(t: VTable, es: seq<Entry>)
    requires Unique(t.slots) && forall k :: 0 <= k < |es| ==> Occupied(es[k])
    requires forall n :: Lookup(t, n) == Find(es, n)
    ensures Keys(t) == Names(es)
    ensures Size(t) == |Names(es)|
  {
    SizeIsKeyCount(t);
    forall n ensures n in Keys(t) <==> n in Names(es) {
      FindIffNamed(es, n);
    }
  }

  /** Peeling the first entry off a list: later entries still win. */
  lemma {:induction false} FindCons(es: seq<Entry>, name: string)
    requires |es| > 0 && forall k :: 0 <= k < |es| ==> Occupied(es[k])
    ensures Find(es, name) == Overlay(if es[0].name == name then es[0].index else 0, Find(es[1..], name))
    decreases |es|
  {
    if |es| > 1 && es[|es| - 1].name != name {
      var p := es[..|es| - 1];
      assert es[1..][..|es| - 2] == p[1..];
      FindCons(p, name);
    }
  }

  // ---------------------------------------------------------------------
  // Lemmas about hashing and probing

  lemma {:induction false} HashSumAppend(s: string, c: char)
    ensures HashSum(s + [c]) == HashSum(s) * 31 + (c as int)
    decreases |s|
  {
    if |s| > 0 {
      var s' := s + [c];
      assert s'[1..] == s[1..] + [c];
      HashSumAppend(s[1..], c);
      var x := s[0] as int;
      var p := Pow31(|s| - 1);
      assert Pow31(|s|) == 31 * p;
      assert x * (31 * p) == (x * p) * 31;
    }
  }

  /** The source's sum of powers is Java's `hashCode` recurrence. */
  lemma {:induction false} HashSumIsHorner(s: string)
    ensures HashSum(s) == Horner(s)
    decreases |s|
  {
    if |s| > 0 {
      var p := s[..|s| - 1];
      HashSumIsHorner(p);
      assert p + [s[|s| - 1]] == s;
      HashSumAppend(p, s[|s| - 1]);
    }
  }

  lemma ModBelow(x: int, m: int)
    requires 0 <= x < m
    ensures x % m == x
  {
  }

  lemma ModOnce(x: int, m: int)
    requires 0 < m <= x < 2 * m
    ensures x % m == x - m
  {
    assert x == m * 1 + (x - m);
  }

  /** `Wrap` is the source's `(index + 1) % length` stepping, taken `d` times. */
  lemma {:induction false} WrapIsModulo(h: nat, d: nat, length: nat)
    requires h < length && d < length
    ensures Wrap(h, d, length) == (h + d) % length
    ensures d + 1 < length ==> Wrap(h, d + 1, length) == (Wrap(h, d, length) + 1) % length
  {
    if h + d < length {
      ModBelow(h + d, length);
    } else {
      ModOnce(h + d, length);
    }
    var w := Wrap(h, d, length);
    if d + 1 < length {
      if w + 1 < length {
        ModBelow(w + 1, length);
      } else {
        ModOnce(w + 1, length);
      }
    }
  }

  /** A probe that visited every slot saw neither the name nor a free slot. */
  lemma {:induction false} ExhaustedProbe(t: VTable, name: string)
    requires Probe(t, name, 0).Exhausted?
    ensures !Has(t, name) && !HasEmpty(t)
  {
    forall j | 0 <= j < |t.slots| ensures Occupied(t.slots[j]) && t.slots[j].name != name {
      var d := Dist(Hash(name, |t.slots|), j, |t.slots|);
      assert At(t, name, d) == j;
    }
  }

  /** Under the source's termination condition the probe stops at a slot. */
  lemma {:induction false} ProbeStops(t: VTable, name: string)
    requires Has(t, name) || HasEmpty(t)
    ensures !Probe(t, name, 0).Exhausted?
  {
    if Probe(t, name, 0).Exhausted? {
      ExhaustedProbe(t, name);
    }
  }

  /** On a valid table, meeting an empty slot proves the name absent. */
  lemma {:induction false} VacantMeansAbsent(t: VTable, name: string)
    requires Valid(t) && Probe(t, name, 0).Vacant?
    ensures !Has(t, name)
  {
    var p := Probe(t, name, 0);
    var h := Hash(name, |t.slots|);
    forall j | 0 <= j < |t.slots| && Occupied(t.slots[j]) ensures t.slots[j].name != name {
      var d := Dist(h, j, |t.slots|);
      assert At(t, name, d) == j;
    }
  }

  /** The probe finds exactly what the reference lookup gives. */
  lemma {:induction false} GetIsLookup(t: VTable, name: string)
    requires Valid(t)
    ensures Get(t, name) == Lookup(t, name)
    ensures Exists(t, name) <==> Lookup(t, name) != 0
  {
    var p := Probe(t, name, 0);
    if p.Found? {
      FindOccupied(t.slots, At(t, name, p.offset));
    } else if p.Vacant? {
      VacantMeansAbsent(t, name);
      FindAbsent(t.slots, name);
    } else {
      ExhaustedProbe(t, name);
      FindAbsent(t.slots, name);
    }
  }

  /** Overwriting the slot that holds `name` changes neither which slots
      are occupied nor any slot's name. */
  lemma {:induction false} PutFound(t: VTable, name: string, k: nat)
    requires Valid(t) && k != 0 && Probe(t, name, 0).Found?
    ensures Valid(Put(t, name, k))
    ensures Size(Put(t, name, k)) == Size(t) && Lookup(t, name) != 0
  {
    var p := Probe(t, name, 0);
    var i := At(t, name, p.offset);
    var r := Put(t, name, k);
    assert r.slots == t.slots[i := Entry(name, k)];
    SizeAfterWrite(t.slots, i, Entry(name, k));
    FindOccupied(t.slots, i);
    SameShapeValid(t, r);
  }

  /** Validity depends only on which slots are occupied and by which names. */
  lemma {:induction false} SameShapeValid(t: VTable, r: VTable)
    requires Valid(t) && |r.slots| == |t.slots|
    requires forall j :: 0 <= j < |t.slots| ==>
      r.slots[j].name == t.slots[j].name && Occupied(r.slots[j]) == Occupied(t.slots[j])
    ensures Valid(r)
  {
    forall a, b | 0 <= a < b < |r.slots| && Occupied(r.slots[a]) && Occupied(r.slots[b])
      ensures r.slots[a].name != r.slots[b].name
    {
      assert Occupied(t.slots[a]) && Occupied(t.slots[b]);
    }
    forall j, d: nat | 0 <= j < |r.slots| && Occupied(r.slots[j])
      && d < Dist(Hash(r.slots[j].name, |r.slots|), j, |r.slots|)
      ensures Occupied(r.slots[At(r, r.slots[j].name, d)])
    {
      assert Occupied(t.slots[j]);
      assert Occupied(t.slots[At(t, t.slots[j].name, d)]);
    }
  }

  /** Filling the empty slot the probe stopped at keeps every probe path
      occupied, the new one included. */
  lemma {:induction false} PutVacant(t: VTable, name: string, k: nat)
    requires Valid(t) && k != 0 && Probe(t, name, 0).Vacant?
    ensures Valid(Put(t, name, k))
    ensures Size(Put(t, name, k)) == Size(t) + 1 && Lookup(t, name) == 0
  {
    var p := Probe(t, name, 0);
    var i := At(t, name, p.offset);
    var r := Put(t, name, k);
    assert r.slots == t.slots[i := Entry(name, k)];
    SizeAfterWrite(t.slots, i, Entry(name, k));
    VacantMeansAbsent(t, name);
    FindAbsent(t.slots, name);
    assert Unique(r.slots);
    assert Dist(Hash(name, |t.slots|), i, |t.slots|) == p.offset;
    forall j, d: nat | 0 <= j < |r.slots| && Occupied(r.slots[j])
      && d < Dist(Hash(r.slots[j].name, |r.slots|), j, |r.slots|)
      ensures Occupied(r.slots[At(r, r.slots[j].name, d)])
    {
      if j != i {
        assert r.slots[j] == t.slots[j];
        assert Occupied(t.slots[At(t, t.slots[j].name, d)]);
      } else {
        assert Occupied(t.slots[At(t, name, d)]);
      }
    }
  }

  /** Put keeps the table valid, binds `name` to `k`, leaves every other
      name's binding alone, and grows the table by one slot exactly when
      `name` was new. */
  lemma {:induction false} PutSpec(t: VTable, name: string, k: nat)
    requires Valid(t) && k != 0 && (Has(t, name) || HasEmpty(t))
    ensures Valid(Put(t, name, k))
    ensures Lookup(Put(t, name, k), name) == k
    ensures forall n :: n != name ==> Lookup(Put(t, name, k), n) == Lookup(t, n)
    ensures Size(Put(t, name, k)) == Size(t) + (if Lookup(t, name) == 0 then 1 else 0)
  {
    ProbeStops(t, name);
    var p := Probe(t, name, 0);
    var i := At(t, name, p.offset);
    var r := Put(t, name, k);
    assert r.slots == t.slots[i := Entry(name, k)];
    if p.Found? {
      PutFound(t, name, k);
    } else {
      PutVacant(t, name, k);
    }
    FindOccupied(r.slots, i);
    forall n | n != name ensures Lookup(r, n) == Lookup(t, n) {
      LookupFrame(t.slots, r.slots, i, n);
    }
  }

  /** Enough free slots for every entry means the copy never finds the table full. */
  lemma {:induction false} CopyEntriesFits(dest: VTable, es: seq<Entry>)
    requires Valid(dest) && forall k :: 0 <= k < |es| ==> Occupied(es[k])
    requires Size(dest) + |es| <= |dest.slots|
    ensures CopyEntries(dest, es).Ok?
    decreases |es|
  {
    if |es| > 0 {
      RoomIffEmptySlot(dest.slots);
      PutSpec(dest, es[0].name, es[0].index);
      CopyEntriesFits(Put(dest, es[0].name, es[0].index), es[1..]);
    }
  }

  /** A completed copy is valid and holds the copied bindings over the old ones. */
  lemma {:induction false} CopyEntriesLookup(dest: VTable, es: seq<Entry>)
    requires Valid(dest) && forall k :: 0 <= k < |es| ==> Occupied(es[k])
    requires CopyEntries(dest, es).Ok?
    ensures Valid(CopyEntries(dest, es).value)
    ensures forall n :: Lookup(CopyEntries(dest, es).value, n) == Overlay(Lookup(dest, n), Find(es, n))
    decreases |es|
  {
    if |es| > 0 {
      var e := es[0];
      PutSpec(dest, e.name, e.index);
      var r1 := Put(dest, e.name, e.index);
      CopyEntriesLookup(r1, es[1..]);
      forall n ensures Find(es, n) == Overlay(if e.name == n then e.index else 0, Find(es[1..], n)) {
        FindCons(es, n);
      }
    }
  }

  /** Copying entries with distinct names that `dest` lacks adds one slot per entry. */
  lemma {:induction false} CopyEntriesSize(dest: VTable, es: seq<Entry>)
    requires Valid(dest) && forall k :: 0 <= k < |es| ==> Occupied(es[k])
    requires CopyEntries(dest, es).Ok? && DistinctNames(es)
    requires forall k :: 0 <= k < |es| ==> Lookup(dest, es[k].name) == 0
    ensures Size(CopyEntries(dest, es).value) == Size(dest) + |es|
    decreases |es|
  {
    if |es| > 0 {
      var e := es[0];
      var rest := es[1..];
      PutSpec(dest, e.name, e.index);
      var r1 := Put(dest, e.name, e.index);
      assert forall k :: 0 <= k < |rest| ==> rest[k] == es[k + 1] && rest[k].name != e.name;
      CopyEntriesSize(r1, rest);
    }
  }

  /** `vtable_copy` into a fresh table: every binding of `src` is visible
      and the size equals `src`'s. */
  lemma {:induction false} CopyIntoEmpty(dest: VTable, src: VTable)
    requires Valid(dest) && Valid(src) && Size(dest) == 0 && Size(src) <= |dest.slots|
    ensures Copy(dest, src).Ok?
    ensures Valid(Copy(dest, src).value)
    ensures forall n :: Lookup(Copy(dest, src).value, n) == Lookup(src, n)
    ensures Size(Copy(dest, src).value) == Size(src)
  {
    var es := Entries(src.slots);
    assert forall k :: 0 <= k < |es| ==> Occupied(es[k]) by {
      assert forall k :: 0 <= k < |es| ==> es[k] in es;
    }
    EntriesDistinct(src.slots);
    assert Entries(dest.slots) == [];
    CopyEntriesFits(dest, es);
    CopyEntriesLookup(dest, es);
    CopyEntriesSize(dest, es);
  }

  // ---------------------------------------------------------------------
  // The source's `vtable_put`

  /** The first empty slot on the probe path from step `d`, ignoring names. */
  function FirstFree(t: VTable, name: string, d: nat): (o: Option<nat>)
    requires d <= |t.slots|
    ensures o.Some? ==> d <= o.value < |t.slots| && !Occupied(t.slots[At(t, name, o.value)])
    ensures o.None? ==> forall e :: d <= e < |t.slots| ==> Occupied(t.slots[At(t, name, e)])
    decreases |t.slots| - d
  {
    if d == |t.slots| then None
    else if !Occupied(t.slots[At(t, name, d)]) then Some(d)
    else FirstFree(t, name, d + 1)
  }

  /** `vtable_put` as written: it walks from the home slot to the first
      empty slot and writes there, never comparing names, so a second put
      of the same name adds a duplicate instead of replacing the first. */
  function PutAsWritten(t: VTable, name: string, k: nat): (r: VTable)
    ensures |r.slots| == |t.slots|
    ensures forall j :: 0 <= j < |t.slots| && r.slots[j] != t.slots[j] ==>
      !Occupied(t.slots[j]) && r.slots[j] == Entry(name, k)
  {
    match FirstFree(t, name, 0)
    case None => t
    case Some(o) => VTable(t.slots[At(t, name, o) := Entry(name, k)])
  }

  /** The replace scenario of the source's tests on a length-4 table: as
      written, the second put of "abc" lands in another slot, the lookup
      still finds the first index and the size is 2; the corrected put
      gives 2 and size 1. */
  lemma {:induction false} ReplaceAsWrittenFails()
    ensures var t := PutAsWritten(PutAsWritten(New(4), "abc", 1), "abc", 2);
      Get(t, "abc") == 1 && Size(t) == 2 && !Valid(t)
    ensures var t := Put(Put(New(4), "abc", 1), "abc", 2);
      Has(t, "abc") && Get(t, "abc") == 2 && Size(t) == 1
  {
    var t0 := New(4);
    assert Hash("abc", 4) == 2;
    assert FirstFree(t0, "abc", 0) == Some(0);
    var a1 := PutAsWritten(t0, "abc", 1);
    assert a1.slots == t0.slots[2 := Entry("abc", 1)];
    assert FirstFree(a1, "abc", 0) == Some(1);
    var a2 := PutAsWritten(a1, "abc", 2);
    assert a2.slots == a1.slots[3 := Entry("abc", 2)];
    assert Probe(a2, "abc", 0) == Found(0);
    assert Entries(a2.slots) == [Entry("abc", 1), Entry("abc", 2)];
    assert !Unique(a2.slots) by {
      assert Occupied(a2.slots[2]) && Occupied(a2.slots[3]);
    }

    var p1 := Put(t0, "abc", 1);
    assert HasEmpty(t0) by { assert !Occupied(t0.slots[0]); }
    PutSpec(t0, "abc", 1);
    LookupIffHas(p1, "abc");
    var p2 := Put(p1, "abc", 2);
    PutSpec(p1, "abc", 2);
    LookupIffHas(p2, "abc");
    GetIsLookup(p2, "abc");
  }

  /** One more character: the recurrence of `Horner`, on a concatenation. */
  lemma HornerSnoc(s: string, c: char)
    ensures Horner(s + [c]) == Horner(s) * 31 + c as int
  {
    assert (s + [c])[..|s|] == s;
  }

  lemma {:induction false} HornerHasEngine()
    ensures Horner("hasEngine") == 91473534557564
  {
    assert Horner("h") == 104;
    HornerSnoc("h", 'a');
    assert "h" + ['a'] == "ha";
    assert Horner("ha") == 3321;
    HornerSnoc("ha", 's');
    assert "ha" + ['s'] == "has";
    assert Horner("has") == 103066;
    HornerSnoc("has", 'E');
    assert "has" + ['E'] == "hasE";
    assert Horner("hasE") == 3195115;
    HornerSnoc("hasE", 'n');
    assert "hasE" + ['n'] == "hasEn";
    assert Horner("hasEn") == 99048675;
    HornerSnoc("hasEn", 'g');
    assert "hasEn" + ['g'] == "hasEng";
    assert Horner("hasEng") == 3070509028;
    HornerSnoc("hasEng", 'i');
    assert "hasEng" + ['i'] == "hasEngi";
    assert Horner("hasEngi") == 95185779973;
    HornerSnoc("hasEngi", 'n');
    assert "hasEngi" + ['n'] == "hasEngin";
    assert Horner("hasEngin") == 2950759179273;
    HornerSnoc("hasEngin", 'e');
    assert "hasEngin" + ['e'] == "hasEngine";
    assert Horner("hasEngine") == 91473534557564;
  }

  lemma {:induction false} HornerIsVehicle()
    ensures Horner("isVehicle") == 92796825687714
  {
    assert Horner("i") == 105;
    HornerSnoc("i", 's');
    assert "i" + ['s'] == "is";
    assert Horner("is") == 3370;
    HornerSnoc("is", 'V');
    assert "is" + ['V'] == "isV";
    assert Horner("isV") == 104556;
    HornerSnoc("isV", 'e');
    assert "isV" + ['e'] == "isVe";
    assert Horner("isVe") == 3241337;
    HornerSnoc("isVe", 'h');
    assert "isVe" + ['h'] == "isVeh";
    assert Horner("isVeh") == 100481551;
    HornerSnoc("isVeh", 'i');
    assert "isVeh" + ['i'] == "isVehi";
    assert Horner("isVehi") == 3114928186;
    HornerSnoc("isVehi", 'c');
    assert "isVehi" + ['c'] == "isVehic";
    assert Horner("isVehic") == 96562773865;
    HornerSnoc("isVehic", 'l');
    assert "isVehic" + ['l'] == "isVehicl";
    assert Horner("isVehicl") == 2993445989923;
    HornerSnoc("isVehicl", 'e');
    assert "isVehicl" + ['e'] == "isVehicle";
    assert Horner("isVehicle") == 92796825687714;
  }

  /** "hasEngine" and "isVehicle" share home slot 4 of a 10-slot table. */
  lemma VehicleHomeSlots()
    ensures Hash("hasEngine", 10) == 4 && Hash("isVehicle", 10) == 4
  {
    HornerHasEngine();
    HornerIsVehicle();
    HashSumIsHorner("hasEngine");
    HashSumIsHorner("isVehicle");
  }

  /** The slots after three puts as written into a 10-slot table, of two
      names sharing home slot 4: `a`, then `b`, then `a` again. The second
      `a` lands in slot 6. */
  function OverrideSlots(a: string, b: string): seq<Entry> {
    [EmptySlot, EmptySlot, EmptySlot, EmptySlot, Entry(a, 2), Entry(b, 3), Entry(a, 5), EmptySlot, EmptySlot, EmptySlot]
  }

  lemma {:induction false} OverrideAsWrittenSlots(a: string, b: string)
    requires a != b && Hash(a, 10) == 4 && Hash(b, 10) == 4
    ensures PutAsWritten(PutAsWritten(PutAsWritten(New(10), a, 2), b, 3), a, 5).slots == OverrideSlots(a, b)
  {
    var t0 := New(10);
    assert FirstFree(t0, a, 0) == Some(0);
    var a1 := PutAsWritten(t0, a, 2);
    assert a1.slots == t0.slots[4 := Entry(a, 2)];
    assert FirstFree(a1, b, 0) == Some(1);
    var a2 := PutAsWritten(a1, b, 3);
    assert a2.slots == a1.slots[5 := Entry(b, 3)];
    assert At(a2, a, 1) == 5 && At(a2, a, 2) == 6;
    assert FirstFree(a2, a, 2) == Some(2);
    assert FirstFree(a2, a, 0) == FirstFree(a2, a, 1) == Some(2);
    var a3 := PutAsWritten(a2, a, 5);
    assert a3.slots == a2.slots[6 := Entry(a, 5)];
  }

  /** On those slots the probe for `a` stops at its first copy. */
  lemma OverrideSlotsGet(a: string, b: string)
    requires Hash(a, 10) == 4
    ensures Get(VTable(OverrideSlots(a, b)), a) == 2
  {
    assert Probe(VTable(OverrideSlots(a, b)), a, 0) == Found(0);
  }

  /** One more slot adds one entry exactly when it is occupied. */
  lemma SnocCount(s: seq<Entry>, e: Entry)
    ensures |Entries(s + [e])| == |Entries(s)| + (if Occupied(e) then 1 else 0)
  {
    EntriesSnoc(s, e);
  }

  /** Three occupied slots appended add three entries. */
  lemma {:induction false} SnocOccupied3(s: seq<Entry>, x: Entry, y: Entry, z: Entry)
    requires Occupied(x) && Occupied(y) && Occupied(z)
    ensures |Entries(s + [x, y, z])| == |Entries(s)| + 3
  {
    var s1 := s + [x];
    var s2 := s1 + [y];
    SnocCount(s, x);
    SnocCount(s1, y);
    SnocCount(s2, z);
    assert s2 + [z] == s + [x, y, z];
  }

  /** Three free slots appended add nothing. */
  lemma {:induction false} SnocFree3(s: seq<Entry>, e: Entry)
    requires !Occupied(e)
    ensures |Entries(s + [e, e, e])| == |Entries(s)|
  {
    var s1 := s + [e];
    var s2 := s1 + [e];
    SnocCount(s, e);
    SnocCount(s1, e);
    SnocCount(s2, e);
    assert s2 + [e] == s + [e, e, e];
  }

  /** Three occupied slots between runs of free ones give three entries. */
  lemma {:induction false} ThreeEntries(e: Entry, x: Entry, y: Entry, z: Entry)
    requires !Occupied(e) && Occupied(x) && Occupied(y) && Occupied(z)
    ensures |Entries([e, e, e, e, x, y, z, e, e, e])| == 3
  {
    var p4 := [e, e, e, e];
    NoEntries(p4);
    SnocOccupied3(p4, x, y, z);
    SnocFree3(p4 + [x, y, z], e);
    assert p4 + [x, y, z] + [e, e, e] == [e, e, e, e, x, y, z, e, e, e];
  }

  /** Three of those slots are occupied. */
  lemma OverrideSlotsSize(a: string, b: string)
    ensures Size(VTable(OverrideSlots(a, b))) == 3
  {
    ThreeEntries(EmptySlot, Entry(a, 2), Entry(b, 3), Entry(a, 5));
  }

  /** Three puts as written: the override of `a` does not replace its first
      binding, so the lookup still answers the first index. */
  lemma OverrideAsWrittenAt(a: string, b: string)
    requires a != b && Hash(a, 10) == 4 && Hash(b, 10) == 4
    ensures var t := PutAsWritten(PutAsWritten(PutAsWritten(New(10), a, 2), b, 3), a, 5);
      Get(t, a) == 2 && Size(t) == 3
  {
    OverrideAsWrittenSlots(a, b);
    OverrideSlotsGet(a, b);
    OverrideSlotsSize(a, b);
  }

  /** The same three puts with the corrected put: the override wins. */
  lemma {:induction false} OverrideCorrectedAt(a: string, b: string)
    requires a != b
    ensures var t := Put(Put(Put(New(10), a, 2), b, 3), a, 5);
      Get(t, a) == 5 && Size(t) == 2
  {
    var t0 := New(10);
    var p1 := Put(t0, a, 2);
    assert HasEmpty(t0) by { assert !Occupied(t0.slots[0]); }
    PutSpec(t0, a, 2);
    var p2 := Put(p1, b, 3);
    RoomIffEmptySlot(p1.slots);
    PutSpec(p1, b, 3);
    var p3 := Put(p2, a, 5);
    PutSpec(p2, a, 5);
    LookupIffHas(p3, a);
    GetIsLookup(p3, a);
  }

  /** The override of the depth-three pool test, put as written into Car's
      10-slot table after Vehicle's two methods: `vtable_get` still answers
      Vehicle's index 2 for "hasEngine" instead of Car's 5, which the
      corrected put gives. */
  lemma OverrideAsWrittenFails()
    ensures var t := PutAsWritten(PutAsWritten(PutAsWritten(New(10), "hasEngine", 2), "isVehicle", 3), "hasEngine", 5);
      Get(t, "hasEngine") == 2 && Size(t) == 3
    ensures var t := Put(Put(Put(New(10), "hasEngine", 2), "isVehicle", 3), "hasEngine", 5);
      Get(t, "hasEngine") == 5 && Size(t) == 2
  {
    VehicleHomeSlots();
    OverrideAsWrittenAt("hasEngine", "isVehicle");
    OverrideCorrectedAt("hasEngine", "isVehicle");
  }

  /** Two names with the same home slot, as in the source's collision test. */
  lemma HashCollision()
    ensures Hash("A", 4) == Hash("E", 4) == 1
  {
  }
}
