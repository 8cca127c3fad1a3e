/** The binary file format (binary_format.c): a constant pool and an
    instruction stream written as bytes. Every 32-bit number is big-endian;
    a text is its length counting the terminating NUL, its bytes, then NUL;
    a pool is its length followed by one tagged record per index; an
    instruction stream is its length followed by (opcode, operand) pairs.
    Reading is modelled on an in-memory byte sequence: each reader returns
    what it decoded together with the bytes after it. */
module BinaryFormat {
  import opened Results
  import opened Instructions
  import opened ConstantPools
  import opened CStrings

  type Bytes = seq<Byte>

  /** The entry type tags of constantpool.h. */
  const TYPE_CLASS: Byte := 0
  const TYPE_FIELD: Byte := 1
  const TYPE_METHOD: Byte := 2
  const TYPE_STRING: Byte := 3

  predicate Fits32(x: nat) {
    x < 0x1_0000_0000
  }

  // ---------------------------------------------------------------------
  // 32-bit numbers

  /** `write_uint32_big_endian`: most significant byte first. */
  function WriteU32(x: nat): (bs: Bytes)
    requires Fits32(x)
    ensures |bs| == 4
    ensures bs[0] as int * 0x100_0000 + bs[1] as int * 0x1_0000 + bs[2] as int * 0x100 + bs[3] as int == x
  {
    var a := x / 0x100;
    var b := a / 0x100;
    var c := b / 0x100;
    [c as Byte, (b % 0x100) as Byte, (a % 0x100) as Byte, (x % 0x100) as Byte]
  }

  /** `read_uint32_big_endian`; a short input is `Truncated` (the source
      leaves the value undefined). */
  function ReadU32(bs: Bytes): (r: Result<(nat, Bytes)>)
    ensures r.Ok? <==> |bs| >= 4
    ensures r.Err? ==> r.fault == Truncated
    ensures r.Ok? ==> Fits32(r.value.0) && r.value.1 == bs[4..]
  {
    if |bs| < 4 then Err(Truncated)
    else Ok((bs[0] as int * 0x100_0000 + bs[1] as int * 0x1_0000 + bs[2] as int * 0x100 + bs[3] as int, bs[4..]))
  }

  lemma U32RoundTrip(x: nat, rest: Bytes)
    requires Fits32(x)
    ensures ReadU32(WriteU32(x) + rest) == Ok((x, rest))
  {
    assert (WriteU32(x) + rest)[4..] == rest;
  }

  /** Reading four bytes and writing the number back gives the same bytes. */
  lemma U32Canonical(bs: Bytes)
    requires |bs| >= 4
    ensures WriteU32(ReadU32(bs).value.0) == bs[..4]
  {
    var x := ReadU32(bs).value.0;
    var w := WriteU32(x);
    Digits(w, bs[..4]);
  }

  /** Two big-endian byte quadruples with the same value are the same bytes. */
  lemma Digits(a: Bytes, b: Bytes)
    requires |a| == 4 && |b| == 4
    requires a[0] as int * 0x100_0000 + a[1] as int * 0x1_0000 + a[2] as int * 0x100 + a[3] as int
          == b[0] as int * 0x100_0000 + b[1] as int * 0x1_0000 + b[2] as int * 0x100 + b[3] as int
    ensures a == b
  {
    var a2 := a[0] as int * 0x1_0000 + a[1] as int * 0x100 + a[2] as int;
    var b2 := b[0] as int * 0x1_0000 + b[1] as int * 0x100 + b[2] as int;
    LastDigit(a2, a[3] as int, b2, b[3] as int);
    var a1 := a[0] as int * 0x100 + a[1] as int;
    var b1 := b[0] as int * 0x100 + b[1] as int;
    LastDigit(a1, a[2] as int, b1, b[2] as int);
    LastDigit(a[0] as int, a[1] as int, b[0] as int, b[1] as int);
  }

  /** Base-256 numbers with equal value have equal last digits and equal
      leading parts. */
  lemma LastDigit(x: int, d: int, y: int, e: int)
    requires 0 <= d < 0x100 && 0 <= e < 0x100
    requires x * 0x100 + d == y * 0x100 + e
    ensures x == y && d == e
  {
  }

  // ---------------------------------------------------------------------
  // Texts

  /** The bytes of a C string, without its terminator. */
  function TextBytes(s: string): (bs: Bytes)
    requires IsText(s)
    ensures |bs| == |s| && 0 !in bs
    ensures forall i :: 0 <= i < |s| ==> bs[i] as int == s[i] as int
  {
    seq(|s|, i requires 0 <= i < |s| => s[i] as int as Byte)
  }

  /** A text as the writer lays it out: `strlen + 1`, the bytes, NUL. */
  function WriteText(s: string): (bs: Bytes)
    requires IsText(s) && Fits32(|s| + 1)
    ensures |bs| == 4 + |s| + 1
  {
    WriteU32(|s| + 1) + TextBytes(s) + [0]
  }

  /** The C string held in a buffer: the bytes before its first NUL. A
      buffer with no NUL is `Malformed` (the source would read past it). */
  function CText(buf: Bytes): (r: Result<string>)
    ensures r.Ok? <==> 0 in buf
    ensures r.Err? ==> r.fault == Malformed
    ensures r.Ok? ==>
      && IsText(r.value) && |r.value| < |buf| && buf[|r.value|] == 0
      && TextBytes(r.value) == buf[..|r.value|]
  {
    if |buf| == 0 then Err(Malformed)
    else if buf[0] == 0 then Ok([])
    else
      var t :- CText(buf[1..]);
      var s := [buf[0] as int as char] + t;
      assert buf == [buf[0]] + buf[1..];
      assert TextBytes(s) == [buf[0]] + TextBytes(t);
      Ok(s)
  }

  /** Reading a text: its length, then that many bytes, of which the
      bytes before the first NUL are the text. */
  function ReadText(bs: Bytes): (r: Result<(string, Bytes)>)
    ensures r.Err? ==> r.fault == Truncated || r.fault == Malformed
    ensures r.Ok? ==> |r.value.1| < |bs|
  {
    var n :- ReadU32(bs);
    var len, rest := n.0, n.1;
    if |rest| < len then Err(Truncated)
    else
      var s :- CText(rest[..len]);
      Ok((s, rest[len..]))
  }

  lemma TextRoundTrip(s: string, rest: Bytes)
    requires IsText(s) && Fits32(|s| + 1)
    ensures ReadText(WriteText(s) + rest) == Ok((s, rest))
  {
    var t := TextBytes(s) + [0] + rest;
    assert WriteText(s) + rest == WriteU32(|s| + 1) + t;
    U32RoundTrip(|s| + 1, t);
    assert t[..|s| + 1] == TextBytes(s) + [0] + [];
    CTextOf(s, []);
    assert t[|s| + 1..] == rest;
  }

  /** The buffer holding a text, its NUL and anything after reads as that text. */
  lemma {:induction false} CTextOf(s: string, after: Bytes)
    requires IsText(s)
    ensures CText(TextBytes(s) + [0] + after) == Ok(s)
    decreases |s|
  {
    var buf := TextBytes(s) + [0] + after;
    if |s| > 0 {
      var t := s[1..];
      assert IsText(t);
      assert buf[1..] == TextBytes(t) + [0] + after;
      CTextOf(t, after);
      assert [buf[0] as int as char] + t == s;
    }
  }

  // ---------------------------------------------------------------------
  // Pool entries

  /** What the writer can lay out: texts of C strings and numbers of 32
      bits, as the fields of the source's entry structs are. */
  predicate Encodable(e: Entry) {
    match e
    case Class(name, parent, fields, methods, _) =>
      IsText(name) && Fits32(|name| + 1) && Fits32(parent) && Fits32(fields) && Fits32(methods)
    case Field(name, owner, slot) =>
      IsText(name) && Fits32(|name| + 1) && Fits32(owner) && Fits32(slot)
    case Method(name, owner, address, args, locals) =>
      IsText(name) && Fits32(|name| + 1) && Fits32(owner) && Fits32(address) && Fits32(args) && Fits32(locals)
    case Str(value) =>
      IsText(value) && Fits32(|value| + 1)
  }

  /** A pool the writer can lay out: a 32-bit length and every index set
      to an encodable entry. */
  predicate EncodablePool(p: Pool) {
    && Fits32(Length(p))
    && AllEncodable(p.entries)
  }

  /** The number of bytes the writer spends on an entry. */
  function EntrySize(e: Entry): nat {
    match e
    case Class(name, _, _, _, _) => 1 + 4 + |name| + 1 + 3 * 4
    case Field(name, _, _) => 1 + 4 + |name| + 1 + 2 * 4
    case Method(name, _, _, _, _) => 1 + 4 + |name| + 1 + 4 * 4
    case Str(value) => 1 + 4 + |value| + 1
  }

  /** The entry the reader rebuilds: a class comes back without a vtable. */
  function Unlink(e: Entry): (r: Entry)
    ensures r.Class? <==> e.Class?
    ensures r.Class? ==> r.vtable.None? && r == e.(vtable := None)
    ensures !r.Class? ==> r == e
  {
    if e.Class? then e.(vtable := None) else e
  }

  /** One record of `binform_write_constantpool`: the type byte, then the
      fields in the order of the entry's struct. */
  function WriteEntry(e: Entry): (bs: Bytes)
    requires Encodable(e)
    ensures |bs| == EntrySize(e)
    ensures bs[0] == match e
      case Class(_, _, _, _, _) => TYPE_CLASS
      case Field(_, _, _) => TYPE_FIELD
      case Method(_, _, _, _, _) => TYPE_METHOD
      case Str(_) => TYPE_STRING
  {
    match e
    case Class(name, parent, fields, methods, _) =>
      [TYPE_CLASS] + WriteText(name) + WriteU32(parent) + WriteU32(fields) + WriteU32(methods)
    case Field(name, owner, slot) =>
      [TYPE_FIELD] + WriteText(name) + WriteU32(owner) + WriteU32(slot)
    case Method(name, owner, address, args, locals) =>
      [TYPE_METHOD] + WriteText(name) + WriteU32(owner) + WriteU32(address) + WriteU32(args) + WriteU32(locals)
    case Str(value) =>
      [TYPE_STRING] + WriteText(value)
  }

  /** One record of `binform_read_constantpool`. A type byte outside 0..3
      matches no case of the source's switch: the index stays unset and
      only that byte is consumed. */
  function ReadEntry(bs: Bytes): (r: Result<(Option<Entry>, Bytes)>)
    ensures r.Err? ==> r.fault == Truncated || r.fault == Malformed
    ensures r.Ok? ==> |r.value.1| < |bs|
    ensures r.Ok? && r.value.0.Some? && r.value.0.value.Class? ==> r.value.0.value.vtable.None?
  {
    if |bs| == 0 then Err(Truncated)
    else
      var tag, rest := bs[0], bs[1..];
      if tag == TYPE_CLASS then
        var name :- ReadText(rest);
        var parent :- ReadU32(name.1);
        var fields :- ReadU32(parent.1);
        var methods :- ReadU32(fields.1);
        Ok((Some(Class(name.0, parent.0, fields.0, methods.0, None)), methods.1))
      else if tag == TYPE_FIELD then
        var name :- ReadText(rest);
        var owner :- ReadU32(name.1);
        var slot :- ReadU32(owner.1);
        Ok((Some(Field(name.0, owner.0, slot.0)), slot.1))
      else if tag == TYPE_METHOD then
        var name :- ReadText(rest);
        var owner :- ReadU32(name.1);
        var address :- ReadU32(owner.1);
        var args :- ReadU32(address.1);
        var locals :- ReadU32(args.1);
        Ok((Some(Method(name.0, owner.0, address.0, args.0, locals.0)), locals.1))
      else if tag == TYPE_STRING then
        var value :- ReadText(rest);
        Ok((Some(Str(value.0)), value.1))
      else
        Ok((None, rest))
  }

  /** An unknown type byte is skipped on its own and leaves the index unset. */
  lemma UnknownTagSkipped(tag: Byte, rest: Bytes)
    requires tag > TYPE_STRING
    ensures ReadEntry([tag] + rest) == Ok((None, rest))
  {
    assert ([tag] + rest)[1..] == rest;
  }

  /** A record reads back as the entry it was written from, vtable dropped. */
  lemma EntryRoundTrip(e: Entry, rest: Bytes)
    requires Encodable(e)
    ensures ReadEntry(WriteEntry(e) + rest) == Ok((Some(Unlink(e)), rest))
  {
    match e
    case Class(name, parent, fields, methods, vtable) =>
      ClassRoundTrip(name, parent, fields, methods, vtable, rest);
    case Field(name, owner, slot) =>
      FieldRoundTrip(name, owner, slot, rest);
    case Method(name, owner, address, args, locals) =>
      MethodRoundTrip(name, owner, address, args, locals, rest);
    case Str(value) =>
      StrRoundTrip(value, rest);
  }

  lemma ClassRoundTrip(name: string, parent: nat, fields: nat, methods: nat, vtable: Option<VTables.VTable>, rest: Bytes)
    requires Encodable(Class(name, parent, fields, methods, vtable))
    ensures ReadEntry(WriteEntry(Class(name, parent, fields, methods, vtable)) + rest)
      == Ok((Some(Class(name, parent, fields, methods, None)), rest))
  {
    var after := WriteU32(parent) + WriteU32(fields) + WriteU32(methods) + rest;
    var bs := WriteEntry(Class(name, parent, fields, methods, vtable)) + rest;
    assert bs == [TYPE_CLASS] + (WriteText(name) + after);
    assert bs[1..] == WriteText(name) + after;
    TextRoundTrip(name, after);
    U32s3(parent, fields, methods, rest);
  }

  lemma FieldRoundTrip(name: string, owner: nat, slot: nat, rest: Bytes)
    requires Encodable(Field(name, owner, slot))
    ensures ReadEntry(WriteEntry(Field(name, owner, slot)) + rest) == Ok((Some(Field(name, owner, slot)), rest))
  {
    var after := WriteU32(owner) + WriteU32(slot) + rest;
    var bs := WriteEntry(Field(name, owner, slot)) + rest;
    assert bs == [TYPE_FIELD] + (WriteText(name) + after);
    assert bs[1..] == WriteText(name) + after;
    TextRoundTrip(name, after);
    U32s2(owner, slot, rest);
  }

  lemma MethodRoundTrip(name: string, owner: nat, address: nat, args: nat, locals: nat, rest: Bytes)
    requires Encodable(Method(name, owner, address, args, locals))
    ensures ReadEntry(WriteEntry(Method(name, owner, address, args, locals)) + rest)
      == Ok((Some(Method(name, owner, address, args, locals)), rest))
  {
    var after := WriteU32(owner) + WriteU32(address) + WriteU32(args) + WriteU32(locals) + rest;
    var bs := WriteEntry(Method(name, owner, address, args, locals)) + rest;
    assert bs == [TYPE_METHOD] + (WriteText(name) + after);
    assert bs[1..] == WriteText(name) + after;
    TextRoundTrip(name, after);
    U32s4(owner, address, args, locals, rest);
  }

  lemma StrRoundTrip(value: string, rest: Bytes)
    requires Encodable(Str(value))
    ensures ReadEntry(WriteEntry(Str(value)) + rest) == Ok((Some(Str(value)), rest))
  {
    var bs := WriteEntry(Str(value)) + rest;
    assert bs == [TYPE_STRING] + (WriteText(value) + rest);
    assert bs[1..] == WriteText(value) + rest;
    TextRoundTrip(value, rest);
  }

  lemma U32s2(a: nat, b: nat, rest: Bytes)
    requires Fits32(a) && Fits32(b)
    ensures ReadU32(WriteU32(a) + WriteU32(b) + rest) == Ok((a, WriteU32(b) + rest))
    ensures ReadU32(WriteU32(b) + rest) == Ok((b, rest))
  {
    assert WriteU32(a) + WriteU32(b) + rest == WriteU32(a) + (WriteU32(b) + rest);
    U32RoundTrip(a, WriteU32(b) + rest);
    U32RoundTrip(b, rest);
  }

  lemma U32s3(a: nat, b: nat, c: nat, rest: Bytes)
    requires Fits32(a) && Fits32(b) && Fits32(c)
    ensures ReadU32(WriteU32(a) + WriteU32(b) + WriteU32(c) + rest) == Ok((a, WriteU32(b) + WriteU32(c) + rest))
    ensures ReadU32(WriteU32(b) + WriteU32(c) + rest) == Ok((b, WriteU32(c) + rest))
    ensures ReadU32(WriteU32(c) + rest) == Ok((c, rest))
  {
    assert WriteU32(a) + WriteU32(b) + WriteU32(c) + rest == WriteU32(a) + (WriteU32(b) + WriteU32(c) + rest);
    U32RoundTrip(a, WriteU32(b) + WriteU32(c) + rest);
    U32s2(b, c, rest);
  }

  lemma U32s4(a: nat, b: nat, c: nat, d: nat, rest: Bytes)
    requires Fits32(a) && Fits32(b) && Fits32(c) && Fits32(d)
    ensures ReadU32(WriteU32(a) + WriteU32(b) + WriteU32(c) + WriteU32(d) + rest)
      == Ok((a, WriteU32(b) + WriteU32(c) + WriteU32(d) + rest))
    ensures ReadU32(WriteU32(b) + WriteU32(c) + WriteU32(d) + rest) == Ok((b, WriteU32(c) + WriteU32(d) + rest))
    ensures ReadU32(WriteU32(c) + WriteU32(d) + rest) == Ok((c, WriteU32(d) + rest))
    ensures ReadU32(WriteU32(d) + rest) == Ok((d, rest))
  {
    assert WriteU32(a) + WriteU32(b) + WriteU32(c) + WriteU32(d) + rest
      == WriteU32(a) + (WriteU32(b) + WriteU32(c) + WriteU32(d) + rest);
    U32RoundTrip(a, WriteU32(b) + WriteU32(c) + WriteU32(d) + rest);
    U32s3(b, c, d, rest);
  }

  // ---------------------------------------------------------------------
  // Pools

  /** The records of `es`, one after the other. */
  function WriteEntries(es: seq<Option<Entry>>): (bs: Bytes)
    requires AllEncodable(es)
  {
    if |es| == 0 then [] else WriteEntry(es[0].value) + WriteEntries(es[1..])
  }

  /** `binform_write_constantpool`. */
  function WritePool(p: Pool): (bs: Bytes)
    requires EncodablePool(p)
    ensures |bs| >= 4
  {
    WriteU32(Length(p)) + WriteEntries(p.entries)
  }

  /** `n` records read one after the other. */
  function ReadEntries(bs: Bytes, n: nat): (r: Result<(seq<Option<Entry>>, Bytes)>)
    ensures r.Ok? ==> |r.value.0| == n
    ensures r.Err? ==> r.fault == Truncated || r.fault == Malformed
    decreases n
  {
    if n == 0 then Ok(([], bs))
    else
      var e :- ReadEntry(bs);
      var es :- ReadEntries(e.1, n - 1);
      Ok(([e.0] + es.0, es.1))
  }

  /** `binform_read_constantpool`: a fresh pool of the stored length, with
      each record added at its index. */
  function ReadPool(bs: Bytes): (r: Result<(Pool, Bytes)>)
    ensures r.Err? ==> r.fault == Truncated || r.fault == Malformed
    ensures r.Ok? ==> Fits32(Length(r.value.0))
    ensures r.Ok? ==> forall c :: IsClass(r.value.0, c) ==> ClassAt(r.value.0, c).vtable.None?
  {
    var n :- ReadU32(bs);
    var es :- ReadEntries(n.1, n.0);
    ReadEntriesUnlinked(n.1, n.0);
    Ok((Pool(es.0), es.1))
  }

  /** Every class the reader builds has no vtable yet. */
  lemma {:induction false} ReadEntriesUnlinked(bs: Bytes, n: nat)
    requires ReadEntries(bs, n).Ok?
    ensures var es := ReadEntries(bs, n).value.0;
      forall i :: 0 <= i < |es| && es[i].Some? && es[i].value.Class? ==> es[i].value.vtable.None?
    decreases n
  {
    if n > 0 {
      var e := ReadEntry(bs).value;
      ReadEntriesUnlinked(e.1, n - 1);
      var es := ReadEntries(bs, n).value.0;
      assert es == [e.0] + ReadEntries(e.1, n - 1).value.0;
    }
  }

  /** The pool the reader rebuilds from a written one: the same entries at
      the same indices, every class without its vtable. */
  function Unlinked(p: Pool): (q: Pool)
    ensures Length(q) == Length(p)
    ensures forall i :: 0 <= i < |p.entries| ==>
      q.entries[i] == if p.entries[i].Some? then Some(Unlink(p.entries[i].value)) else None
  {
    Pool(UnlinkAll(p.entries))
  }

  function UnlinkAll(es: seq<Option<Entry>>): (r: seq<Option<Entry>>)
    ensures |r| == |es|
    ensures forall i :: 0 <= i < |es| ==> r[i] == if es[i].Some? then Some(Unlink(es[i].value)) else None
  {
    seq(|es|, i requires 0 <= i < |es| => if es[i].Some? then Some(Unlink(es[i].value)) else None)
  }

  /** Reading `n` records is reading one and then `n - 1` more. */
  lemma ReadEntriesCons(bs: Bytes, n: nat, e: Option<Entry>, tail: Bytes, es: seq<Option<Entry>>, rest: Bytes)
    requires n > 0 && ReadEntry(bs) == Ok((e, tail)) && ReadEntries(tail, n - 1) == Ok((es, rest))
    ensures ReadEntries(bs, n) == Ok(([e] + es, rest))
  {
  }

  /** Every index set to an encodable entry. */
  predicate AllEncodable(es: seq<Option<Entry>>) {
    forall i :: 0 <= i < |es| ==> es[i].Some? && Encodable(es[i].value)
  }

  lemma {:induction false} EntriesRoundTrip(es: seq<Option<Entry>>, rest: Bytes)
    requires AllEncodable(es)
    ensures ReadEntries(WriteEntries(es) + rest, |es|) == Ok((UnlinkAll(es), rest))
    decreases |es|
  {
    if |es| > 0 {
      assert AllEncodable(es[1..]);
      EntriesRoundTrip(es[1..], rest);
      EntriesStep(es, rest);
    } else {
      assert WriteEntries(es) + rest == rest;
      assert UnlinkAll(es) == [];
    }
  }

  /** The inductive step of the pool round trip: one more record in front. */
  lemma EntriesStep(es: seq<Option<Entry>>, rest: Bytes)
    requires |es| > 0 && AllEncodable(es)
    requires ReadEntries(WriteEntries(es[1..]) + rest, |es| - 1) == Ok((UnlinkAll(es[1..]), rest))
    ensures ReadEntries(WriteEntries(es) + rest, |es|) == Ok((UnlinkAll(es), rest))
  {
    var e := es[0].value;
    var tail := WriteEntries(es[1..]) + rest;
    WriteEntriesCons(es, rest);
    EntryRoundTrip(e, tail);
    UnlinkAllCons(es);
    ReadEntriesCons(WriteEntry(e) + tail, |es|, Some(Unlink(e)), tail, UnlinkAll(es[1..]), rest);
  }

  lemma WriteEntriesCons(es: seq<Option<Entry>>, rest: Bytes)
    requires |es| > 0 && AllEncodable(es)
    ensures WriteEntries(es) + rest == WriteEntry(es[0].value) + (WriteEntries(es[1..]) + rest)
  {
  }

  lemma UnlinkAllCons(es: seq<Option<Entry>>)
    requires |es| > 0 && es[0].Some?
    ensures UnlinkAll(es) == [Some(Unlink(es[0].value))] + UnlinkAll(es[1..])
  {
    assert UnlinkAll(es) == [Some(Unlink(es[0].value))] + UnlinkAll(es[1..]);
  }

  /** Reading back a written pool gives every entry at its index, with the
      classes' vtables reset, and leaves what follows untouched. */
  lemma PoolRoundTrip(p: Pool, rest: Bytes)
    requires EncodablePool(p)
    ensures ReadPool(WritePool(p) + rest) == Ok((Unlinked(p), rest))
  {
    var t := WriteEntries(p.entries) + rest;
    assert WritePool(p) + rest == WriteU32(Length(p)) + t;
    U32RoundTrip(Length(p), t);
    EntriesRoundTrip(p.entries, rest);
  }

  /** The sum of the record sizes of `es`. */
  function EntriesSize(es: seq<Option<Entry>>): nat
    requires forall i :: 0 <= i < |es| ==> es[i].Some?
  {
    if |es| == 0 then 0 else EntrySize(es[0].value) + EntriesSize(es[1..])
  }

  lemma {:induction false} EntriesLength(es: seq<Option<Entry>>)
    requires AllEncodable(es)
    ensures |WriteEntries(es)| == EntriesSize(es)
    decreases |es|
  {
    if |es| > 0 {
      EntriesLength(es[1..]);
    }
  }

  /** A written pool is four bytes of length plus its records. */
  lemma PoolLength(p: Pool)
    requires EncodablePool(p)
    ensures |WritePool(p)| == 4 + EntriesSize(p.entries)
  {
    EntriesLength(p.entries);
  }

  // ---------------------------------------------------------------------
  // Instruction streams

  /** One (opcode, operand) pair. */
  function WriteInstruction(inst: Instruction): (bs: Bytes)
    ensures |bs| == 5 && bs[0] == inst.opcode
    ensures ReadU32(bs[1..]) == Ok((inst.operand as nat, []))
  {
    var bs := [inst.opcode] + WriteU32(inst.operand as nat);
    U32RoundTrip(inst.operand as nat, []);
    assert bs[1..] == WriteU32(inst.operand as nat) + [];
    bs
  }

  function WriteInstructions(code: seq<Instruction>): (bs: Bytes)
    ensures |bs| == 5 * |code|
  {
    if |code| == 0 then [] else WriteInstruction(code[0]) + WriteInstructions(code[1..])
  }

  /** `binform_write_instructions`. */
  function WriteStream(code: seq<Instruction>): (bs: Bytes)
    requires Fits32(|code|)
    ensures |bs| == 4 + 5 * |code|
  {
    WriteU32(|code|) + WriteInstructions(code)
  }

  function ReadInstruction(bs: Bytes): (r: Result<(Instruction, Bytes)>)
    ensures r.Ok? <==> |bs| >= 5
    ensures r.Err? ==> r.fault == Truncated
    ensures r.Ok? ==> r.value.1 == bs[5..]
  {
    if |bs| == 0 then Err(Truncated)
    else
      var operand :- ReadU32(bs[1..]);
      Ok((Instruction(bs[0], operand.0 as Word), operand.1))
  }

  function ReadInstructions(bs: Bytes, n: nat): (r: Result<(seq<Instruction>, Bytes)>)
    ensures r.Ok? <==> |bs| >= 5 * n
    ensures r.Err? ==> r.fault == Truncated
    ensures r.Ok? ==> |r.value.0| == n && r.value.1 == bs[5 * n..]
    decreases n
  {
    if n == 0 then Ok(([], bs))
    else
      var i :- ReadInstruction(bs);
      var more :- ReadInstructions(i.1, n - 1);
      Ok(([i.0] + more.0, more.1))
  }

  /** `binform_read_instructions`. */
  function ReadStream(bs: Bytes): (r: Result<(seq<Instruction>, Bytes)>)
    ensures r.Err? ==> r.fault == Truncated
    ensures r.Ok? ==> Fits32(|r.value.0|)
  {
    var n :- ReadU32(bs);
    ReadInstructions(n.1, n.0)
  }

  lemma InstructionRoundTrip(inst: Instruction, rest: Bytes)
    ensures ReadInstruction(WriteInstruction(inst) + rest) == Ok((inst, rest))
  {
    var w := WriteInstruction(inst);
    var bs := w + rest;
    assert bs[1..] == WriteU32(inst.operand as nat) + rest;
    U32RoundTrip(inst.operand as nat, rest);
  }

  lemma {:induction false} InstructionsRoundTrip(code: seq<Instruction>, rest: Bytes)
    ensures ReadInstructions(WriteInstructions(code) + rest, |code|) == Ok((code, rest))
    decreases |code|
  {
    if |code| > 0 {
      var tail := WriteInstructions(code[1..]) + rest;
      assert WriteInstructions(code) + rest == WriteInstruction(code[0]) + tail;
      InstructionRoundTrip(code[0], tail);
      InstructionsRoundTrip(code[1..], rest);
      assert [code[0]] + code[1..] == code;
    }
  }

  /** Reading back a written instruction stream gives the same
      instructions, and leaves what follows untouched. */
  lemma StreamRoundTrip(code: seq<Instruction>, rest: Bytes)
    requires Fits32(|code|)
    ensures ReadStream(WriteStream(code) + rest) == Ok((code, rest))
  {
    var bs := WriteStream(code) + rest;
    assert bs == WriteU32(|code|) + (WriteInstructions(code) + rest);
    U32RoundTrip(|code|, WriteInstructions(code) + rest);
    InstructionsRoundTrip(code, rest);
  }

  /** A file holding a pool followed by an instruction stream reads back
      as both. */
  lemma FileRoundTrip(p: Pool, code: seq<Instruction>)
    requires EncodablePool(p) && Fits32(|code|)
    ensures var r := ReadPool(WritePool(p) + WriteStream(code));
      && r.Ok? && r.value.0 == Unlinked(p)
      && ReadStream(r.value.1) == Ok((code, []))
  {
    PoolRoundTrip(p, WriteStream(code));
    StreamRoundTrip(code, []);
    assert WriteStream(code) + [] == WriteStream(code);
  }

  // ---------------------------------------------------------------------
  // The source's read test

  /** The pool the source's binary-format test writes. */
  const AnimalPool: Pool := Pool([
    Some(Class("Animal", 1, 2, 3, None)),
    Some(Method("sound", 1, 2, 3, 4)),
    Some(Field("age", 1, 0)),
    Some(Str("This is a long string"))])

  lemma AnimalEncodable()
    ensures EncodablePool(AnimalPool)
  {
    var p := AnimalPool;
    assert IsText("Animal") && IsText("sound") && IsText("age");
    assert IsText("This is a long string");
    forall i | 0 <= i < |p.entries| ensures p.entries[i].Some? && Encodable(p.entries[i].value) {
      assert i in {0, 1, 2, 3};
    }
  }

  /** Reading the written pool back gives four entries: the class, the
      method, the field and the string, with the values the test expects. */
  lemma AnimalRoundTrip()
    ensures EncodablePool(AnimalPool)
    ensures var r := ReadPool(WritePool(AnimalPool));
      && r.Ok? && r.value.1 == []
      && Length(r.value.0) == 4
      && Get(r.value.0, 1) == Ok(Class("Animal", 1, 2, 3, None))
      && Get(r.value.0, 2) == Ok(Method("sound", 1, 2, 3, 4))
      && Get(r.value.0, 3) == Ok(Field("age", 1, 0))
      && Get(r.value.0, 4) == Ok(Str("This is a long string"))
  {
    AnimalEncodable();
    PoolRoundTrip(AnimalPool, []);
    assert WritePool(AnimalPool) + [] == WritePool(AnimalPool);
    var q := Unlinked(AnimalPool);
    assert q.entries[0] == Some(Class("Animal", 1, 2, 3, None));
  }
}
