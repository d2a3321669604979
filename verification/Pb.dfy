/** Messages of nanopb, and the bytes that stand for them (nanopb/pb.h).

    A message type is a tree of fields in static storage: no callbacks, no extensions, no
    pointers. */
module Pb {
  import opened Entries
  import opened Coding

  /** How a field's values are stored: their type, and their size in memory where that
      matters. */
  datatype FieldType =
    | Bool
    | VarInt(size: nat)
    | UVarInt(size: nat)
    | SVarInt(size: nat)
    | Word32
    | Word64
    | ByteArray(capacity: nat)
    | Text(size: nat)
    | FixedBytes(length: nat)
    | SubMessage(desc: Desc)

  /** Which values a field has. `Singular` fields have no flag: they are left out of an
      encoding when they hold zero. All `Oneof` fields of a union share one place. */
  datatype Rule =
    | Required
    | Optional
    | Singular
    | Repeated(max: nat)
    | FixedCount(max: nat)
    | Oneof(union: nat)

  datatype Field = Field(tag: nat, kind: FieldType, rule: Rule, init: Option<Datum>)

  datatype Desc = Desc(fields: seq<Field>, unions: nat)

  datatype Datum = Flag(on: bool) | Num(n: int) | Data(bytes: Bytes) | Struct(msg: Msg)

  /** What the struct of a message holds for a field; nothing of its own for a field of
      a union. */
  datatype Slot = One(v: Datum) | Maybe(o: Option<Datum>) | Many(items: seq<Datum>) | Shared

  datatype Choice = Choice(which: nat, v: Datum)

  datatype Msg = Msg(slots: seq<Slot>, unions: seq<Option<Choice>>)

  // ---------------------------------------------------------- well-formed

  const LIMIT_TAG: nat := 0x2000_0000

  function Half(size: nat): int {
    if size == 1 then 0x80 else if size == 2 then 0x8000 else if size == 4 then 0x8000_0000 else LIMIT64 / 2
  }

  predicate SizeOk(size: nat) {
    size == 1 || size == 2 || size == 4 || size == 8
  }

  predicate TypeOk(kind: FieldType)
    decreases kind
  {
    match kind
    case VarInt(size) => SizeOk(size)
    case UVarInt(size) => SizeOk(size)
    case SVarInt(size) => SizeOk(size)
    case Text(size) => 0 < size < LIMIT32
    case FixedBytes(length) => 0 < length < LIMIT32
    case ByteArray(capacity) => capacity < LIMIT32
    case SubMessage(desc) => DescOk(desc)
    case _ => true
  }

  predicate FieldOk(f: Field, unions: nat)
    decreases f
  {
    0 < f.tag < LIMIT_TAG && TypeOk(f.kind)
    && (f.rule.Oneof? ==> f.rule.union < unions)
    && (f.rule.FixedCount? ==> 0 < f.rule.max)
    && (f.init.Some? ==> !f.kind.SubMessage? && Typed(f.kind, f.init.value))
  }

  predicate DescOk(d: Desc)
    decreases d
  {
    (forall i :: 0 <= i < |d.fields| ==> FieldOk(d.fields[i], d.unions))
    && forall i, j :: 0 <= i < j < |d.fields| ==> d.fields[i].tag != d.fields[j].tag
  }

  /** The value has the field's type. A text ends at its first zero, or where its storage ends. */
  predicate Typed(kind: FieldType, v: Datum)
    decreases kind
  {
    match kind
    case Bool => v.Flag?
    case VarInt(size) => v.Num? && -Half(size) <= v.n < Half(size)
    case UVarInt(size) => v.Num? && 0 <= v.n < 2 * Half(size)
    case SVarInt(size) => v.Num? && -Half(size) <= v.n < Half(size)
    case Word32 => v.Num? && 0 <= v.n < LIMIT32
    case Word64 => v.Num? && 0 <= v.n < LIMIT64
    case ByteArray(_) => v.Data? && |v.bytes| < LIMIT32
    case Text(size) => v.Data? && |v.bytes| <= size && forall i :: 0 <= i < |v.bytes| ==> v.bytes[i] != 0
    case FixedBytes(length) => v.Data? && |v.bytes| == length
    case SubMessage(d) => v.Struct? && TypedMsg(d, v.msg)
  }

  predicate TypedSlot(f: Field, slot: Slot)
    decreases f
  {
    match f.rule
    case Required => slot.One? && Typed(f.kind, slot.v)
    case Optional => slot.Maybe? && (slot.o.Some? ==> Typed(f.kind, slot.o.value))
    case Singular => slot.One? && Typed(f.kind, slot.v)
    case Repeated(_) => slot.Many? && forall k :: 0 <= k < |slot.items| ==> Typed(f.kind, slot.items[k])
    case FixedCount(max) => slot.Many? && |slot.items| == max && forall k :: 0 <= k < |slot.items| ==> Typed(f.kind, slot.items[k])
    case Oneof(_) => slot.Shared?
  }

  /** The field is the one that union `u` holds. */
  predicate IsChoice(f: Field, u: nat, c: Choice)
    decreases f
  {
    f.rule == Oneof(u) && f.tag == c.which && Typed(f.kind, c.v)
  }

  predicate TypedMsg(d: Desc, m: Msg)
    decreases d
  {
    |m.slots| == |d.fields| && |m.unions| == d.unions
    && (forall i :: 0 <= i < |d.fields| ==> TypedSlot(d.fields[i], m.slots[i]))
    && forall u: nat :: u < d.unions && m.unions[u].Some? ==>
         exists i :: 0 <= i < |d.fields| && IsChoice(d.fields[i], u, m.unions[u].value)
  }

  lemma TagsDiffer(d: Desc, i: nat, j: nat)
    requires DescOk(d) && i < |d.fields| && j < |d.fields| && d.fields[i].tag == d.fields[j].tag
    ensures i == j
  {
  }

  /** The value of a union has the type of the field with its tag. */
  lemma ChosenIsTyped(d: Desc, m: Msg, i: nat)
    requires DescOk(d) && TypedMsg(d, m) && i < |d.fields| && d.fields[i].rule.Oneof?
    requires var u := d.fields[i].rule.union; u < d.unions && m.unions[u].Some? && m.unions[u].value.which == d.fields[i].tag
    ensures IsChoice(d.fields[i], d.fields[i].rule.union, m.unions[d.fields[i].rule.union].value)
  {
    var u := d.fields[i].rule.union;
    var j :| 0 <= j < |d.fields| && IsChoice(d.fields[j], u, m.unions[u].value);
    TagsDiffer(d, i, j);
  }

  // ------------------------------------------------------------- defaults

  function ZeroOf(kind: FieldType): Datum
    decreases kind, 0
  {
    match kind
    case Bool => Flag(false)
    case ByteArray(_) => Data([])
    case Text(_) => Data([])
    case FixedBytes(length) => Data(seq(length, _ => 0))
    case SubMessage(d) => Struct(Default(d))
    case _ => Num(0)
  }

  function InitValue(f: Field): Datum
    decreases f, 1
  {
    if f.init.Some? then f.init.value else ZeroOf(f.kind)
  }

  /** What a field holds before decoding. */
  function DefaultSlot(f: Field): Slot
    decreases f, 2
  {
    match f.rule
    case Required => One(InitValue(f))
    case Optional => Maybe(None)
    case Singular => One(InitValue(f))
    case Repeated(_) => Many([])
    case FixedCount(max) => Many(seq(max, _ => ZeroOf(f.kind)))
    case Oneof(_) => Shared
  }

  function Default(d: Desc): Msg
    decreases d, 0
  {
    Msg(seq(|d.fields|, i requires 0 <= i < |d.fields| => DefaultSlot(d.fields[i])), seq(d.unions, _ => None))
  }

  // ------------------------------------------------------------ zero values

  /** Whether a value is what a field without a flag leaves out. */
  predicate ZeroValue(kind: FieldType, v: Datum)
    decreases kind, 0
  {
    match (kind, v)
    case (Bool, Flag(on)) => !on
    case (FixedBytes(length), _) => length == 0
    case (_, Data(bytes)) => bytes == []
    case (SubMessage(d), Struct(m)) => ZeroMsg(d, m)
    case (_, Num(n)) => n == 0
    case _ => false
  }

  predicate ZeroMsg(d: Desc, m: Msg)
    decreases d, 1
  {
    forall i :: 0 <= i < |d.fields| && i < |m.slots| ==> ZeroField(d, m, i)
  }

  predicate ZeroField(d: Desc, m: Msg, i: nat)
    requires i < |d.fields| && i < |m.slots|
    decreases d, 0
  {
    var f := d.fields[i];
    match (f.rule, m.slots[i])
    case (Optional, Maybe(o)) => o.None?
    case (Singular, One(v)) => ZeroValue(f.kind, v)
    case (Repeated(_), Many(items)) => items == []
    case (Oneof(u), _) => u < |m.unions| ==> m.unions[u].None?
    case _ => false
  }

  // ------------------------------------------------------------- bytes

  function Concat(parts: seq<Bytes>): Bytes {
    if parts == [] then [] else Concat(parts[..|parts| - 1]) + parts[|parts| - 1]
  }

  lemma ConcatOne(b: Bytes)
    ensures Concat([b]) == b
  {
    assert [b][..0] == [] && [] + b == b;
  }

  lemma ConcatStep(parts: seq<Bytes>, k: nat)
    requires k < |parts|
    ensures Concat(parts[..k + 1]) == Concat(parts[..k]) + parts[k]
  {
    assert parts[..k + 1][..k] == parts[..k];
  }

  lemma {:induction false} ConcatSplit(a: seq<Bytes>, b: seq<Bytes>)
    ensures Concat(a + b) == Concat(a) + Concat(b)
  {
    if b == [] {
      assert a + b == a;
    } else {
      var n := |b| - 1;
      ConcatSplit(a, b[..n]);
      assert a + b == a + b[..n] + [b[n]];
      ConcatMore(a + b[..n], b[n]);
      Associative(Concat(a), Concat(b[..n]), b[n]);
    }
  }

  lemma ConcatMore(parts: seq<Bytes>, b: Bytes)
    ensures Concat(parts + [b]) == Concat(parts) + b
  {
    assert (parts + [b])[..|parts|] == parts;
  }

  lemma Associative(a: Bytes, b: Bytes, c: Bytes)
    ensures a + b + c == a + (b + c)
  {
  }

  lemma ConcatPrefix(parts: seq<Bytes>, k: nat)
    requires k <= |parts|
    ensures Concat(parts[..k]) <= Concat(parts)
    ensures k < |parts| ==> Concat(parts[..k]) + parts[k] <= Concat(parts) && |parts[k]| <= |Concat(parts)|
  {
    assert parts[..k] + parts[k..] == parts;
    ConcatSplit(parts[..k], parts[k..]);
    if k < |parts| {
      ConcatStep(parts, k);
      assert parts[..k + 1] + parts[k + 1..] == parts;
      ConcatSplit(parts[..k + 1], parts[k + 1..]);
    }
  }

  function Map<T, U>(f: T -> U, s: seq<T>): seq<U> {
    seq(|s|, k requires 0 <= k < |s| => f(s[k]))
  }

  function Flatten<T>(groups: seq<seq<T>>): seq<T> {
    if groups == [] then [] else Flatten(groups[..|groups| - 1]) + groups[|groups| - 1]
  }

  lemma {:induction false} ConcatGroups<T>(f: T -> Bytes, groups: seq<seq<T>>)
    ensures Concat(Map(f, Flatten(groups))) == Concat(Map((g: seq<T>) => Concat(Map(f, g)), groups))
  {
    if groups != [] {
      var n, h := |groups| - 1, (g: seq<T>) => Concat(Map(f, g));
      ConcatGroups(f, groups[..n]);
      assert Map(f, Flatten(groups)) == Map(f, Flatten(groups[..n])) + Map(f, groups[n]);
      ConcatSplit(Map(f, Flatten(groups[..n])), Map(f, groups[n]));
      assert Map(h, groups)[..n] == Map(h, groups[..n]);
    }
  }

  // -------------------------------------------------------------- encoding

  const WT_VARINT: nat := 0
  const WT_64BIT: nat := 1
  const WT_STRING: nat := 2
  const WT_32BIT: nat := 5

  function WireType(kind: FieldType): nat {
    match kind
    case Word32 => WT_32BIT
    case Word64 => WT_64BIT
    case ByteArray(_) => WT_STRING
    case Text(_) => WT_STRING
    case FixedBytes(_) => WT_STRING
    case SubMessage(_) => WT_STRING
    case _ => WT_VARINT
  }

  predicate Packable(kind: FieldType) {
    WireType(kind) != WT_STRING
  }

  /** Signed numbers as unsigned ones, small magnitudes first. */
  function ZigZag(n: int): nat {
    if n < 0 then -2 * n - 1 else 2 * n
  }

  /** What is written for one record: a value, or the values of a packed array. */
  datatype Rec = Rec(i: nat, body: seq<Datum>, packed: bool)

  function ArrayRecords(kind: FieldType, i: nat, items: seq<Datum>): seq<Rec> {
    if items == [] then []
    else if Packable(kind) then [Rec(i, items, true)]
    else seq(|items|, k requires 0 <= k < |items| => Rec(i, [items[k]], false))
  }

  /** The records that a field is written as. */
  function FieldRecords(d: Desc, m: Msg, i: nat): seq<Rec>
    requires i < |d.fields| && i < |m.slots|
  {
    var f := d.fields[i];
    match (f.rule, m.slots[i])
    case (Required, One(v)) => [Rec(i, [v], false)]
    case (Optional, Maybe(o)) => if o.Some? then [Rec(i, [o.value], false)] else []
    case (Singular, One(v)) => if ZeroValue(f.kind, v) then [] else [Rec(i, [v], false)]
    case (Repeated(_), Many(items)) => ArrayRecords(f.kind, i, items)
    case (FixedCount(_), Many(items)) => ArrayRecords(f.kind, i, items)
    case (Oneof(u), _) =>
      if u < |m.unions| && m.unions[u].Some? && m.unions[u].value.which == f.tag then [Rec(i, [m.unions[u].value.v], false)]
      else []
    case _ => []
  }

  function FieldGroups(d: Desc, m: Msg): seq<seq<Rec>>
    requires |d.fields| == |m.slots|
  {
    seq(|d.fields|, i requires 0 <= i < |d.fields| => FieldRecords(d, m, i))
  }

  /** The records of a message: those of its fields in turn. */
  function Records(d: Desc, m: Msg): seq<Rec>
    requires |d.fields| == |m.slots|
  {
    Flatten(FieldGroups(d, m))
  }

  /** What stands for a value behind its tag. */
  function Payload(kind: FieldType, v: Datum): Bytes
    decreases kind, 0
  {
    match (kind, v)
    case (Bool, Flag(on)) => [if on then 1 else 0]
    case (VarInt(_), Num(n)) => Varint(n % LIMIT64)
    case (UVarInt(_), Num(n)) => Varint(n % LIMIT64)
    case (SVarInt(_), Num(n)) => Varint(ZigZag(n))
    case (Word32, Num(n)) => Fixed32(n % LIMIT32)
    case (Word64, Num(n)) => Fixed64(n % LIMIT64)
    case (SubMessage(d), Struct(m)) => Prefixed(Encoding(d, m))
    case (_, Data(bytes)) => Prefixed(bytes)
    case _ => []
  }

  function Payloads(kind: FieldType, body: seq<Datum>): seq<Bytes>
    decreases kind, 1
  {
    Map((v: Datum) => Payload(kind, v), body)
  }

  function RecTag(f: Field, r: Rec): nat {
    f.tag * 8 + if r.packed then WT_STRING else WireType(f.kind)
  }

  /** A tag, and what it announces. */
  function RecBytes(d: Desc, r: Rec): Bytes
    decreases d, 0
  {
    if r.i >= |d.fields| then []
    else
      var body := Concat(Payloads(d.fields[r.i].kind, r.body));
      Varint(RecTag(d.fields[r.i], r)) + if r.packed then Prefixed(body) else body
  }

  function RecsBytes(d: Desc, recs: seq<Rec>): seq<Bytes>
    decreases d, 1
  {
    Map((r: Rec) => RecBytes(d, r), recs)
  }

  /** The encoding of a message: its records in turn. */
  function Encoding(d: Desc, m: Msg): Bytes
    decreases d, 2
  {
    if |m.slots| != |d.fields| then [] else Concat(RecsBytes(d, Records(d, m)))
  }

  // ---------------------------------------------------------------- limits

  /** Whether the values fit their storage; with a slack of one, texts also have room for
      the zero behind them. */
  predicate Within(kind: FieldType, v: Datum, slack: nat)
    decreases kind, 0
  {
    match (kind, v)
    case (ByteArray(capacity), Data(bytes)) => |bytes| <= capacity
    case (Text(size), Data(bytes)) => |bytes| + slack <= size
    case (SubMessage(d), Struct(m)) => WithinMsg(d, m, slack)
    case _ => true
  }

  predicate AllWithin(kind: FieldType, body: seq<Datum>, slack: nat)
    decreases kind, 1
  {
    forall k :: 0 <= k < |body| ==> Within(kind, body[k], slack)
  }

  predicate RecsWithin(d: Desc, recs: seq<Rec>, slack: nat)
    decreases d, 1
  {
    forall k :: 0 <= k < |recs| && recs[k].i < |d.fields| ==> AllWithin(d.fields[recs[k].i].kind, recs[k].body, slack)
  }

  predicate WithinField(d: Desc, m: Msg, i: nat, slack: nat)
    requires i < |d.fields| && i < |m.slots|
    decreases d, 2
  {
    (d.fields[i].rule.Repeated? && m.slots[i].Many? ==> |m.slots[i].items| <= d.fields[i].rule.max)
    && RecsWithin(d, FieldRecords(d, m, i), slack)
  }

  /** No array has too many items, and every value that is written fits. */
  predicate WithinMsg(d: Desc, m: Msg, slack: nat)
    decreases d, 3
  {
    forall i :: 0 <= i < |d.fields| && i < |m.slots| ==> WithinField(d, m, i, slack)
  }

  /** The limits, value by value and field by field. */
  function WithinEach(kind: FieldType, items: seq<Datum>, slack: nat): seq<bool> {
    Map((v: Datum) => Within(kind, v, slack), items)
  }

  function WithinFields(d: Desc, m: Msg, slack: nat): seq<bool>
    requires |d.fields| == |m.slots|
  {
    seq(|d.fields|, i requires 0 <= i < |d.fields| => WithinField(d, m, i, slack))
  }

  predicate All(goods: seq<bool>) {
    forall k :: 0 <= k < |goods| ==> goods[k]
  }

  lemma EachIsWithin(kind: FieldType, items: seq<Datum>, slack: nat)
    ensures AllWithin(kind, items, slack) <==> All(WithinEach(kind, items, slack))
  {
    var goods := WithinEach(kind, items, slack);
    if All(goods) {
      forall k | 0 <= k < |items|
        ensures Within(kind, items[k], slack)
      {
        assert goods[k];
      }
    }
  }

  lemma FieldsAreWithin(d: Desc, m: Msg, slack: nat)
    requires |d.fields| == |m.slots|
    ensures WithinMsg(d, m, slack) <==> All(WithinFields(d, m, slack))
  {
    var goods := WithinFields(d, m, slack);
    if All(goods) {
      forall i | 0 <= i < |d.fields|
        ensures WithinField(d, m, i, slack)
      {
        assert goods[i];
      }
    }
  }

  /** What leaves room for the zeros behind texts can be written. */
  lemma {:induction false} WithinLess(d: Desc, m: Msg)
    requires WithinMsg(d, m, 1)
    ensures WithinMsg(d, m, 0)
    decreases d
  {
    forall i: nat | i < |d.fields| && i < |m.slots|
      ensures WithinField(d, m, i, 0)
    {
      assert WithinField(d, m, i, 1);
      var recs := FieldRecords(d, m, i);
      forall k: nat | k < |recs| && recs[k].i < |d.fields|
        ensures AllWithin(d.fields[recs[k].i].kind, recs[k].body, 0)
      {
        assert RecsWithin(d, recs, 1) && AllWithin(d.fields[recs[k].i].kind, recs[k].body, 1);
        AllWithinLess(d.fields[recs[k].i].kind, recs[k].body);
      }
    }
  }

  lemma {:induction false} AllWithinLess(kind: FieldType, body: seq<Datum>)
    requires AllWithin(kind, body, 1)
    ensures AllWithin(kind, body, 0)
    decreases kind
  {
    forall k: nat | k < |body|
      ensures Within(kind, body[k], 0)
    {
      assert Within(kind, body[k], 1);
      if kind.SubMessage? && body[k].Struct? {
        WithinLess(kind.desc, body[k].msg);
      }
    }
  }

  // ------------------------------------------------------ encoding, by field

  function FieldBytes(d: Desc, m: Msg, i: nat): Bytes
    requires i < |d.fields| && i < |m.slots|
  {
    Concat(RecsBytes(d, FieldRecords(d, m, i)))
  }

  /** The bytes of the fields, field by field. */
  function FieldParts(d: Desc, m: Msg): seq<Bytes>
    requires |d.fields| == |m.slots|
  {
    seq(|d.fields|, i requires 0 <= i < |d.fields| => FieldBytes(d, m, i))
  }

  lemma EncodingIsParts(d: Desc, m: Msg)
    requires |d.fields| == |m.slots|
    ensures Encoding(d, m) == Concat(FieldParts(d, m))
  {
    var f, groups := (r: Rec) => RecBytes(d, r), FieldGroups(d, m);
    ConcatGroups(f, groups);
    assert Map((g: seq<Rec>) => Concat(Map(f, g)), groups) == FieldParts(d, m);
  }

  /** A value behind its tag. */
  function TaggedBytes(f: Field, v: Datum): Bytes {
    Varint(f.tag * 8 + WireType(f.kind)) + Payload(f.kind, v)
  }

  function TaggedEach(f: Field, items: seq<Datum>): seq<Bytes> {
    Map((v: Datum) => TaggedBytes(f, v), items)
  }

  lemma RecordOfOne(d: Desc, i: nat, v: Datum)
    requires i < |d.fields|
    ensures RecBytes(d, Rec(i, [v], false)) == TaggedBytes(d.fields[i], v)
  {
    var f := d.fields[i];
    assert Payloads(f.kind, [v]) == [Payload(f.kind, v)];
    ConcatOne(Payload(f.kind, v));
  }

  /** A field of one value. */
  lemma FieldOfOne(d: Desc, m: Msg, i: nat, v: Datum)
    requires i < |d.fields| && i < |m.slots| && FieldRecords(d, m, i) == [Rec(i, [v], false)] && !d.fields[i].rule.Repeated?
    ensures FieldBytes(d, m, i) == TaggedBytes(d.fields[i], v)
    ensures WithinField(d, m, i, 0) <==> Within(d.fields[i].kind, v, 0)
  {
    var r := Rec(i, [v], false);
    RecordOfOne(d, i, v);
    assert RecsBytes(d, [r]) == [RecBytes(d, r)];
    ConcatOne(RecBytes(d, r));
    OneWithin(d, i, v, 0);
  }

  lemma OneWithin(d: Desc, i: nat, v: Datum, slack: nat)
    requires i < |d.fields|
    ensures RecsWithin(d, [Rec(i, [v], false)], slack) <==> Within(d.fields[i].kind, v, slack)
  {
    var recs := [Rec(i, [v], false)];
    if RecsWithin(d, recs, slack) {
      assert AllWithin(d.fields[recs[0].i].kind, recs[0].body, slack);
      assert Within(d.fields[i].kind, recs[0].body[0], slack);
    }
  }

  lemma FieldOfNone(d: Desc, m: Msg, i: nat)
    requires i < |d.fields| && i < |m.slots| && FieldRecords(d, m, i) == [] && !d.fields[i].rule.Repeated?
    ensures FieldBytes(d, m, i) == [] && WithinField(d, m, i, 0)
  {
  }

  /** An array, packed or not. */
  lemma ArrayBytes(d: Desc, i: nat, items: seq<Datum>)
    requires i < |d.fields|
    ensures var f, recs := d.fields[i], ArrayRecords(d.fields[i].kind, i, items);
            RecsWithin(d, recs, 0) == AllWithin(f.kind, items, 0)
            && Concat(RecsBytes(d, recs)) ==
                 if items == [] then []
                 else if Packable(f.kind) then Varint(f.tag * 8 + WT_STRING) + Prefixed(Concat(Payloads(f.kind, items)))
                 else Concat(TaggedEach(f, items))
  {
    var f, recs := d.fields[i], ArrayRecords(d.fields[i].kind, i, items);
    ArrayWithin(d, i, items, 0);
    if items == [] {
    } else if Packable(f.kind) {
      assert RecsBytes(d, recs) == [RecBytes(d, recs[0])];
      ConcatOne(RecBytes(d, recs[0]));
    } else {
      forall k | 0 <= k < |items|
        ensures RecBytes(d, recs[k]) == TaggedBytes(f, items[k])
      {
        RecordOfOne(d, i, items[k]);
      }
      assert RecsBytes(d, recs) == TaggedEach(f, items);
    }
  }

  lemma ArrayWithin(d: Desc, i: nat, items: seq<Datum>, slack: nat)
    requires i < |d.fields|
    ensures RecsWithin(d, ArrayRecords(d.fields[i].kind, i, items), slack) == AllWithin(d.fields[i].kind, items, slack)
  {
    var kind, recs := d.fields[i].kind, ArrayRecords(d.fields[i].kind, i, items);
    if RecsWithin(d, recs, slack) {
      forall k | 0 <= k < |items|
        ensures Within(kind, items[k], slack)
      {
        var j := if Packable(kind) then 0 else k;
        assert AllWithin(d.fields[recs[j].i].kind, recs[j].body, slack);
        assert Within(kind, recs[j].body[if Packable(kind) then k else 0], slack);
      }
    }
  }

  /** A field that is an array. */
  lemma FieldOfArray(d: Desc, m: Msg, i: nat)
    requires i < |d.fields| && i < |m.slots| && m.slots[i].Many? && (d.fields[i].rule.Repeated? || d.fields[i].rule.FixedCount?)
    ensures FieldBytes(d, m, i) == Concat(RecsBytes(d, ArrayRecords(d.fields[i].kind, i, m.slots[i].items)))
    ensures WithinField(d, m, i, 0) <==>
              (d.fields[i].rule.Repeated? ==> |m.slots[i].items| <= d.fields[i].rule.max)
              && AllWithin(d.fields[i].kind, m.slots[i].items, 0)
  {
    ArrayWithin(d, i, m.slots[i].items, 0);
  }
}
