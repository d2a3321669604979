/** The encoder of nanopb: a pass that only counts, and one that writes
    (nanopb/pb_encode.c). */
module PbEncode {
  import opened Entries
  import opened Coding
  import opened Pb

  /** The state of an output stream; a stream that only counts has no memory behind it. */
  datatype Out = Out(sizing: bool, maxSize: nat, written: nat, buffer: Bytes)

  /** Trying to write `b` takes `a` to `z`: it succeeds exactly when the data are `good` and
      there is room, and then `b` is what was written or counted. */
  ghost predicate Emitted(a: Out, z: Out, ok: bool, good: bool, b: Bytes) {
    z.sizing == a.sizing && z.maxSize == a.maxSize
    && ok == (good && (a.sizing || a.written + |b| <= a.maxSize))
    && (if ok then z.written == a.written + |b| && z.buffer == (if a.sizing then a.buffer else a.buffer + b)
        else a.written <= z.written && a.buffer <= z.buffer && (a.sizing ==> z.buffer == a.buffer)
             && (!a.sizing ==> z.written <= z.maxSize && z.written - a.written == |z.buffer| - |a.buffer|))
  }

  lemma EmittedThen(s: Out, t: Out, z: Out, ok: bool, good: bool, b: Bytes, good': bool, b': Bytes)
    requires Emitted(s, t, true, good, b) && Emitted(t, z, ok, good', b')
    ensures Emitted(s, z, ok, good && good', b + b')
  {
    assert s.buffer + b + b' == s.buffer + (b + b');
  }

  /** What fails already fails with more to come. */
  lemma EmittedFails(s: Out, t: Out, good: bool, b: Bytes, good': bool, b': Bytes)
    requires Emitted(s, t, false, good, b)
    ensures Emitted(s, t, false, good && good', b + b')
  {
  }

  lemma EmittedNothing(s: Out)
    requires s.sizing || s.written <= s.maxSize
    ensures Emitted(s, s, true, true, [])
  {
  }

  /** One more of several parts, written in turn. */
  lemma EmittedPart(s: Out, t: Out, z: Out, ok: bool, parts: seq<Bytes>, goods: seq<bool>, k: nat)
    requires k < |parts| == |goods| && All(goods[..k])
    requires Emitted(s, t, true, true, Concat(parts[..k])) && Emitted(t, z, ok, goods[k], parts[k])
    ensures ok ==> All(goods[..k + 1]) && Emitted(s, z, true, true, Concat(parts[..k + 1]))
    ensures !ok ==> Emitted(s, z, false, All(goods), Concat(parts))
  {
    var before, here, all := Concat(parts[..k]), parts[k], Concat(parts);
    AllStep(goods, k);
    ConcatStep(parts, k);
    ConcatPrefix(parts, k);
    EmittedThen(s, t, z, ok, true, before, goods[k], here);
    if !ok {
      EmittedFails(s, z, goods[k], before + here, All(goods), all[|before + here|..]);
      PrefixAndRest(before + here, all);
    }
  }

  lemma AllStep(goods: seq<bool>, k: nat)
    requires k < |goods| && All(goods[..k])
    ensures goods[k] ==> All(goods[..k + 1])
    ensures All(goods) ==> goods[k]
  {
  }

  lemma PrefixAndRest(a: Bytes, all: Bytes)
    requires a <= all
    ensures a + all[|a|..] == all
  {
  }

  class OStream {
    const sizing: bool
    var maxSize: nat
    var written: nat
    var buffer: Bytes

    ghost predicate Valid()
      reads this
    {
      sizing || written <= maxSize
    }

    ghost function State(): Out
      reads this
    {
      Out(sizing, maxSize, written, buffer)
    }

    /** A stream that counts. */
    constructor Sizing()
      ensures Valid() && State() == Out(true, 0, 0, [])
    {
      sizing, maxSize, written, buffer := true, 0, 0, [];
    }

    /** A stream with room for so many bytes, behind what its memory holds already. */
    constructor FromBuffer(buffer: Bytes, maxSize: nat)
      ensures Valid() && State() == Out(false, maxSize, 0, buffer)
    {
      sizing, this.maxSize, written, this.buffer := false, maxSize, 0, buffer;
    }

    method Write(b: Bytes) returns (ok: bool)
      requires Valid()
      modifies this`written, this`buffer
      ensures Valid() && Emitted(old(State()), State(), ok, true, b)
    {
      if |b| > 0 && !sizing {
        if written + |b| > maxSize {
          return false;
        }
        buffer := buffer + b;
      }
      assert b == [] ==> buffer + b == buffer;
      written := written + |b|;
      ok := true;
    }

    /** Counts bytes that are not there to write. */
    method Count(size: nat, ghost b: Bytes) returns (ok: bool)
      requires Valid() && sizing && |b| == size
      modifies this`written
      ensures Valid() && Emitted(old(State()), State(), ok, true, b)
    {
      written := written + size;
      ok := true;
    }

    /** Seven bits a byte, into a buffer of ten bytes; the last top bit is taken off again. */
    method EncodeVarint(value: nat) returns (ok: bool)
      requires Valid() && value < LIMIT64
      modifies this`written, this`buffer
      ensures Valid() && Emitted(old(State()), State(), ok, true, Varint(value))
    {
      if value <= 0x7F {
        ok := Write([value]);
        return;
      }
      var bytes := VarintBytes(value);
      ok := Write(bytes);
    }

    static method VarintBytes(value: nat) returns (r: Bytes)
      requires 0 < value < LIMIT64
      ensures r == Varint(value)
    {
      var bytes := new Byte[10];
      var i: nat, rest: nat := 0, value;
      VarintLength(value, 10);
      assert bytes[..0] == [] && [] + Varint(value) == Varint(value);
      while rest != 0
        invariant i <= 10 && Prefix(bytes[..i], rest, value)
        decreases rest
      {
        PrefixStep(bytes[..i], rest, value);
        PutByte(bytes, i, rest % 128 + 128);
        rest := rest / 128;
        i := i + 1;
      }
      PrefixEnds(bytes[..i], value);
      PutByte(bytes, i - 1, bytes[i - 1] - 128);
      r := bytes[..i];
    }

    static method PutByte(bytes: array<Byte>, i: nat, b: Byte)
      requires i < bytes.Length
      modifies bytes
      ensures bytes[..i + 1] == old(bytes[..i]) + [b]
    {
      bytes[i] := b;
    }

    /** All bytes so far have the top bit set; the rest of the value is still to come, or
        the last byte only has its top bit too much. */
    static ghost predicate Prefix(bytes: Bytes, rest: nat, value: nat) {
      forall use: nat :: PrefixIs(bytes, rest, value, use)
    }

    static ghost predicate PrefixIs(bytes: Bytes, rest: nat, value: nat, use: nat) {
      if rest > 0 then bytes + Varint(rest) == Varint(value)
      else bytes != [] && bytes[|bytes| - 1] >= 128 && bytes[..|bytes| - 1] + [bytes[|bytes| - 1] - 128] == Varint(value)
    }

    static lemma PrefixStep(bytes: Bytes, rest: nat, value: nat)
      requires rest > 0 && Prefix(bytes, rest, value)
      ensures |bytes| < |Varint(value)|
      ensures Prefix(bytes + [rest % 128 + 128], rest / 128, value)
    {
      assert PrefixIs(bytes, rest, value, 0);
      var bytes' := bytes + [rest % 128 + 128];
      assert |bytes + Varint(rest)| == |bytes| + |Varint(rest)|;
      if rest < 128 {
        assert bytes'[..|bytes' | - 1] == bytes;
      } else {
        assert bytes + Varint(rest) == bytes' + Varint(rest / 128);
      }
    }

    static lemma PrefixEnds(bytes: Bytes, value: nat)
      requires Prefix(bytes, 0, value)
      ensures bytes != [] && bytes[|bytes| - 1] >= 128
      ensures bytes[..|bytes| - 1] + [bytes[|bytes| - 1] - 128] == Varint(value)
    {
      assert PrefixIs(bytes, 0, value, 0);
    }

    method EncodeSVarint(value: int) returns (ok: bool)
      requires Valid() && -Half(8) <= value < Half(8)
      modifies this`written, this`buffer
      ensures Valid() && Emitted(old(State()), State(), ok, true, Varint(ZigZag(value)))
    {
      var doubled := value * 2 % LIMIT64;
      var zigzagged := if value < 0 then LIMIT64 - 1 - doubled else doubled;
      assert zigzagged == ZigZag(value);
      ok := EncodeVarint(zigzagged);
    }

    method EncodeTag(wireType: nat, tag: nat) returns (ok: bool)
      requires Valid() && tag < LIMIT_TAG && wireType < 8
      modifies this`written, this`buffer
      ensures Valid() && Emitted(old(State()), State(), ok, true, Varint(tag * 8 + wireType))
    {
      ok := EncodeVarint(tag * 8 + wireType);
    }

    method EncodeString(bytes: Bytes) returns (ok: bool)
      requires Valid() && |bytes| < LIMIT64
      modifies this`written, this`buffer
      ensures Valid() && Emitted(old(State()), State(), ok, true, Prefixed(bytes))
    {
      ghost var s := State();
      ok := EncodeVarint(|bytes|);
      ghost var t := State();
      if !ok {
        EmittedFails(s, t, true, Varint(|bytes|), true, bytes);
        return;
      }
      ok := Write(bytes);
      EmittedThen(s, t, State(), ok, true, Varint(|bytes|), true, bytes);
    }

    method EncodeFixed32(value: nat) returns (ok: bool)
      requires Valid() && value < LIMIT32
      modifies this`written, this`buffer
      ensures Valid() && Emitted(old(State()), State(), ok, true, Fixed32(value))
    {
      ok := Write([value % 0x100, value / 0x100 % 0x100, value / 0x1_0000 % 0x100, value / 0x100_0000]);
    }

    method EncodeFixed64(value: nat) returns (ok: bool)
      requires Valid() && value < LIMIT64
      modifies this`written, this`buffer
      ensures Valid() && Emitted(old(State()), State(), ok, true, Fixed64(value))
    {
      var low, high := value % LIMIT32, value / LIMIT32;
      ok := Write([low % 0x100, low / 0x100 % 0x100, low / 0x1_0000 % 0x100, low / 0x100_0000]
                + [high % 0x100, high / 0x100 % 0x100, high / 0x1_0000 % 0x100, high / 0x100_0000]);
    }

    /** Writes one value as its type asks. */
    method EncodeValue(kind: FieldType, v: Datum) returns (ok: bool)
      requires Valid() && Typed(kind, v) && TypeOk(kind) && |Payload(kind, v)| < LIMIT64
      modifies this`written, this`buffer
      ensures Valid() && Emitted(old(State()), State(), ok, Within(kind, v, 0), Payload(kind, v))
      decreases kind, 1
    {
      match v
      case Flag(on) => ok := EncodeVarint(if on then 1 else 0);
      case Num(n) => ok := EncodeNumber(kind, n);
      case Data(bytes) => ok := EncodeData(kind, bytes);
      case Struct(m) => ok := EncodeSubMessage(kind.desc, m);
    }

    method EncodeNumber(kind: FieldType, n: int) returns (ok: bool)
      requires Valid() && TypeOk(kind) && Typed(kind, Num(n))
      modifies this`written, this`buffer
      ensures Valid() && Emitted(old(State()), State(), ok, true, Payload(kind, Num(n)))
    {
      NumberPayload(kind, n);
      match kind
      case VarInt(_) => ok := EncodeVarint(n % LIMIT64);
      case UVarInt(_) => ok := EncodeVarint(n);
      case SVarInt(_) => ok := EncodeSVarint(n);
      case Word32 => ok := EncodeFixed32(n);
      case Word64 => ok := EncodeFixed64(n);
    }

    static lemma NumberPayload(kind: FieldType, n: int)
      requires TypeOk(kind) && Typed(kind, Num(n))
      ensures kind.VarInt? ==> Payload(kind, Num(n)) == Varint(n % LIMIT64)
      ensures kind.UVarInt? ==> 0 <= n < LIMIT64 && Payload(kind, Num(n)) == Varint(n)
      ensures kind.SVarInt? ==> -Half(8) <= n < Half(8) && Payload(kind, Num(n)) == Varint(ZigZag(n))
      ensures kind.Word32? ==> 0 <= n < LIMIT32 && Payload(kind, Num(n)) == Fixed32(n)
      ensures kind.Word64? ==> 0 <= n < LIMIT64 && Payload(kind, Num(n)) == Fixed64(n)
    {
      if 0 <= n < LIMIT64 {
        SmallRemainder(n, LIMIT64);
      }
      if 0 <= n < LIMIT32 {
        SmallRemainder(n, LIMIT32);
      }
    }

    static lemma SmallRemainder(n: nat, limit: nat)
      requires n < limit
      ensures n % limit == n
    {
    }

    /** Bytes behind their length; a byte array is checked against its capacity. */
    method EncodeData(kind: FieldType, bytes: Bytes) returns (ok: bool)
      requires Valid() && TypeOk(kind) && Typed(kind, Data(bytes))
      modifies this`written, this`buffer
      ensures Valid() && Emitted(old(State()), State(), ok, Within(kind, Data(bytes), 0), Payload(kind, Data(bytes)))
    {
      if kind.ByteArray? && |bytes| > kind.capacity {
        return false;
      }
      ok := EncodeString(bytes);
    }

    /** Counts the message, writes its length, and writes it to a stream that has room for
        no more than was counted. */
    method EncodeSubMessage(d: Desc, m: Msg) returns (ok: bool)
      requires Valid() && DescOk(d) && TypedMsg(d, m) && |Encoding(d, m)| < LIMIT64
      modifies this`written, this`buffer
      ensures Valid() && Emitted(old(State()), State(), ok, WithinMsg(d, m, 0), Prefixed(Encoding(d, m)))
      decreases d, 4
    {
      ghost var s, b, good := State(), Encoding(d, m), WithinMsg(d, m, 0);
      var counter := new OStream.Sizing();
      ok := counter.Encode(d, m);
      if !ok {
        return;
      }
      var size := counter.written;
      ok := EncodeVarint(size);
      ghost var t := State();
      if !ok {
        EmittedFails(s, t, true, Varint(|b|), good, b);
        return;
      }
      ok := EncodeCounted(d, m, size);
      EmittedThen(s, t, State(), ok, true, Varint(|b|), good, b);
    }

    /** A message whose size is known; it cannot turn out to have another size. */
    method EncodeCounted(d: Desc, m: Msg, size: nat) returns (ok: bool)
      requires Valid() && DescOk(d) && TypedMsg(d, m) && WithinMsg(d, m, 0) && size == |Encoding(d, m)| < LIMIT64
      modifies this`written, this`buffer
      ensures Valid() && Emitted(old(State()), State(), ok, true, Encoding(d, m))
      decreases d, 3
    {
      if sizing {
        ok := Count(size, Encoding(d, m));
        return;
      }
      if written + size > maxSize {
        return false;
      }
      var sub := new OStream.FromBuffer(buffer, size);
      ok := sub.Encode(d, m);
      written := written + sub.written;
      buffer := sub.buffer;
      if sub.written != size {
        assert false;
        ok := false;
      }
    }

    method Encode(d: Desc, m: Msg) returns (ok: bool)
      requires Valid() && DescOk(d) && TypedMsg(d, m) && |Encoding(d, m)| < LIMIT64
      modifies this`written, this`buffer
      ensures Valid() && Emitted(old(State()), State(), ok, WithinMsg(d, m, 0), Encoding(d, m))
      decreases d, 2
    {
      ghost var s, parts, goods := State(), FieldParts(d, m), WithinFields(d, m, 0);
      FieldsAreWithin(d, m, 0);
      EncodingIsParts(d, m);
      EmittedNothing(s);
      for i := 0 to |d.fields|
        invariant Valid() && Emitted(s, State(), true, true, Concat(parts[..i])) && All(goods[..i])
      {
        ok := EncodeNext(d, m, i, s, parts, goods);
        if !ok {
          return;
        }
      }
      assert parts[..|d.fields|] == parts && goods[..|d.fields|] == goods;
      ok := true;
    }

    method EncodeNext(d: Desc, m: Msg, i: nat, ghost s: Out, ghost parts: seq<Bytes>, ghost goods: seq<bool>) returns (ok: bool)
      requires Valid() && DescOk(d) && TypedMsg(d, m) && i < |d.fields|
      requires parts == FieldParts(d, m) && goods == WithinFields(d, m, 0) && |Concat(parts)| < LIMIT64
      requires Emitted(s, State(), true, true, Concat(parts[..i])) && All(goods[..i])
      modifies this`written, this`buffer
      ensures Valid()
      ensures if ok then All(goods[..i + 1]) && Emitted(s, State(), true, true, Concat(parts[..i + 1]))
              else Emitted(s, State(), false, All(goods), Concat(parts))
      decreases d, 1
    {
      ghost var t := State();
      ConcatPrefix(parts, i);
      ok := EncodeField(d, m, i);
      EmittedPart(s, t, State(), ok, parts, goods, i);
    }

    /** One field, by its rule. */
    method EncodeField(d: Desc, m: Msg, i: nat) returns (ok: bool)
      requires Valid() && DescOk(d) && TypedMsg(d, m) && i < |d.fields| && |FieldBytes(d, m, i)| < LIMIT64
      modifies this`written, this`buffer
      ensures Valid() && Emitted(old(State()), State(), ok, WithinField(d, m, i, 0), FieldBytes(d, m, i))
      decreases d, 0
    {
      var f := d.fields[i];
      assert FieldOk(f, d.unions) && TypedSlot(f, m.slots[i]);
      if f.rule.Repeated? || f.rule.FixedCount? {
        FieldOfArray(d, m, i);
        ArrayBytes(d, i, m.slots[i].items);
        ok := EncodeArray(f, m.slots[i].items, f.rule.max);
        return;
      }
      var o := SingleValue(d, m, i);
      if o.Some? {
        FieldOfOne(d, m, i, o.value);
        ok := EncodeTagged(f, o.value);
      } else {
        FieldOfNone(d, m, i);
        EmittedNothing(State());
        ok := true;
      }
    }

    /** The value of a field that is no array, unless it is left out. */
    static method SingleValue(d: Desc, m: Msg, i: nat) returns (o: Option<Datum>)
      requires DescOk(d) && TypedMsg(d, m) && i < |d.fields|
      requires !d.fields[i].rule.Repeated? && !d.fields[i].rule.FixedCount?
      ensures o.Some? ==> Typed(d.fields[i].kind, o.value)
      ensures FieldRecords(d, m, i) == if o.Some? then [Rec(i, [o.value], false)] else []
    {
      var f, slot := d.fields[i], m.slots[i];
      assert FieldOk(f, d.unions) && TypedSlot(f, slot);
      match f.rule {
        case Required =>
          o := Some(slot.v);
        case Optional =>
          o := slot.o;
        case Singular =>
          var zero := CheckDefault(d, m, i);
          o := if zero then None else Some(slot.v);
        case Oneof(u) =>
          o := None;
          if m.unions[u].Some? && m.unions[u].value.which == f.tag {
            ChosenIsTyped(d, m, i);
            o := Some(m.unions[u].value.v);
          }
      }
    }

    /** The tag of a field, and a value. */
    method EncodeTagged(f: Field, v: Datum) returns (ok: bool)
      requires Valid() && f.tag < LIMIT_TAG && TypeOk(f.kind) && Typed(f.kind, v) && |TaggedBytes(f, v)| < LIMIT64
      modifies this`written, this`buffer
      ensures Valid() && Emitted(old(State()), State(), ok, Within(f.kind, v, 0), TaggedBytes(f, v))
      decreases f.kind, 4
    {
      ghost var s, tag, good, b := State(), Varint(f.tag * 8 + WireType(f.kind)), Within(f.kind, v, 0), Payload(f.kind, v);
      ok := EncodeTag(WireType(f.kind), f.tag);
      ghost var t := State();
      if !ok {
        EmittedFails(s, t, true, tag, good, b);
        return;
      }
      ok := EncodeValue(f.kind, v);
      EmittedThen(s, t, State(), ok, true, tag, good, b);
    }

    /** What an array is written as. */
    static ghost function BytesOfArray(f: Field, items: seq<Datum>): Bytes {
      if items == [] then []
      else if Packable(f.kind) then Varint(f.tag * 8 + WT_STRING) + Prefixed(Concat(Payloads(f.kind, items)))
      else Concat(TaggedEach(f, items))
    }

    /** A static array; it is packed whenever its type allows that. */
    method EncodeArray(f: Field, items: seq<Datum>, max: nat) returns (ok: bool)
      requires Valid() && f.tag < LIMIT_TAG && TypeOk(f.kind) && |BytesOfArray(f, items)| < LIMIT64
      requires forall k :: 0 <= k < |items| ==> Typed(f.kind, items[k])
      modifies this`written, this`buffer
      ensures Valid()
      ensures Emitted(old(State()), State(), ok, |items| <= max && AllWithin(f.kind, items, 0), BytesOfArray(f, items))
      decreases f.kind, 7
    {
      EmittedNothing(State());
      if items == [] {
        return true;
      }
      if |items| > max {
        return false;
      }
      if Packable(f.kind) {
        ok := EncodePacked(f, items);
      } else {
        EachIsWithin(f.kind, items, 0);
        ok := EncodeEach(f, items);
      }
    }

    /** The tag, the length of all values together, and the values. */
    method EncodePacked(f: Field, items: seq<Datum>) returns (ok: bool)
      requires Valid() && f.tag < LIMIT_TAG && TypeOk(f.kind) && Packable(f.kind) && |Concat(Payloads(f.kind, items))| < LIMIT64
      requires forall k :: 0 <= k < |items| ==> Typed(f.kind, items[k])
      modifies this`written, this`buffer
      ensures Valid() && AllWithin(f.kind, items, 0)
      ensures Emitted(old(State()), State(), ok, true, Varint(f.tag * 8 + WT_STRING) + Prefixed(Concat(Payloads(f.kind, items))))
      decreases f.kind, 5
    {
      ghost var s, tag, all := State(), Varint(f.tag * 8 + WT_STRING), Prefixed(Concat(Payloads(f.kind, items)));
      ok := EncodeTag(WT_STRING, f.tag);
      ghost var t := State();
      if !ok {
        EmittedFails(s, t, true, tag, true, all);
        return;
      }
      ok := EncodeSizedItems(f.kind, items);
      EmittedThen(s, t, State(), ok, true, tag, true, all);
    }

    method EncodeSizedItems(kind: FieldType, items: seq<Datum>) returns (ok: bool)
      requires Valid() && TypeOk(kind) && Packable(kind) && |Concat(Payloads(kind, items))| < LIMIT64
      requires forall k :: 0 <= k < |items| ==> Typed(kind, items[k])
      modifies this`written, this`buffer
      ensures Valid() && Emitted(old(State()), State(), ok, true, Prefixed(Concat(Payloads(kind, items))))
      decreases kind, 4
    {
      ghost var s, all := State(), Concat(Payloads(kind, items));
      var size: nat;
      ok, size := PackedSize(kind, items);
      if !ok {
        return;
      }
      ok := EncodeVarint(size);
      ghost var t := State();
      if !ok {
        EmittedFails(s, t, true, Varint(|all|), true, all);
        return;
      }
      if sizing {
        ok := Count(size, all);
      } else {
        ok := EncodeItems(kind, items);
      }
      EmittedThen(s, t, State(), ok, true, Varint(|all|), true, all);
    }

    /** Words have a fixed size; other values are counted. */
    static method PackedSize(kind: FieldType, items: seq<Datum>) returns (ok: bool, size: nat)
      requires TypeOk(kind) && Packable(kind) && |Concat(Payloads(kind, items))| < LIMIT64
      requires forall k :: 0 <= k < |items| ==> Typed(kind, items[k])
      ensures ok && size == |Concat(Payloads(kind, items))|
      decreases kind, 3
    {
      if kind == Word32 {
        WordsLength(kind, items, 4);
        return true, 4 * |items|;
      }
      if kind == Word64 {
        WordsLength(kind, items, 8);
        return true, 8 * |items|;
      }
      var counter := new OStream.Sizing();
      ok := counter.EncodeItems(kind, items);
      size := counter.written;
    }

    static lemma WordsLength(kind: FieldType, items: seq<Datum>, n: nat)
      requires (kind == Word32 && n == 4) || (kind == Word64 && n == 8)
      requires forall k :: 0 <= k < |items| ==> Typed(kind, items[k])
      ensures |Concat(Payloads(kind, items))| == n * |items|
    {
      EqualParts(Payloads(kind, items), n);
    }

    static lemma {:induction false} EqualParts(parts: seq<Bytes>, n: nat)
      requires forall k :: 0 <= k < |parts| ==> |parts[k]| == n
      ensures |Concat(parts)| == n * |parts|
    {
      if parts != [] {
        EqualParts(parts[..|parts| - 1], n);
      }
    }

    /** The values of a packed array, one behind the other. */
    method EncodeItems(kind: FieldType, items: seq<Datum>) returns (ok: bool)
      requires Valid() && TypeOk(kind) && Packable(kind) && |Concat(Payloads(kind, items))| < LIMIT64
      requires forall k :: 0 <= k < |items| ==> Typed(kind, items[k])
      modifies this`written, this`buffer
      ensures Valid() && Emitted(old(State()), State(), ok, true, Concat(Payloads(kind, items)))
      decreases kind, 2
    {
      ghost var s, parts, goods := State(), Payloads(kind, items), seq(|items|, _ => true);
      EmittedNothing(s);
      for k := 0 to |items|
        invariant Valid() && Emitted(s, State(), true, true, Concat(parts[..k]))
      {
        ghost var t := State();
        ConcatPrefix(parts, k);
        ok := EncodeValue(kind, items[k]);
        EmittedPart(s, t, State(), ok, parts, goods, k);
        if !ok {
          return;
        }
      }
      assert parts[..|items|] == parts;
      ok := true;
    }

    /** The values of an array that cannot be packed, each behind its own tag. */
    method EncodeEach(f: Field, items: seq<Datum>) returns (ok: bool)
      requires Valid() && f.tag < LIMIT_TAG && TypeOk(f.kind) && forall k :: 0 <= k < |items| ==> Typed(f.kind, items[k])
      requires |Concat(TaggedEach(f, items))| < LIMIT64
      modifies this`written, this`buffer
      ensures Valid()
      ensures Emitted(old(State()), State(), ok, All(WithinEach(f.kind, items, 0)), Concat(TaggedEach(f, items)))
      decreases f.kind, 6
    {
      ghost var s, parts, goods := State(), TaggedEach(f, items), WithinEach(f.kind, items, 0);
      EmittedNothing(s);
      for k := 0 to |items|
        invariant Valid() && Emitted(s, State(), true, true, Concat(parts[..k])) && All(goods[..k])
      {
        ok := EncodeNth(f, items, k, s, parts, goods);
        if !ok {
          return;
        }
      }
      assert parts[..|items|] == parts && goods[..|items|] == goods;
      ok := true;
    }

    method EncodeNth(f: Field, items: seq<Datum>, k: nat, ghost s: Out, ghost parts: seq<Bytes>, ghost goods: seq<bool>)
      returns (ok: bool)
      requires Valid() && f.tag < LIMIT_TAG && TypeOk(f.kind) && k < |items| && Typed(f.kind, items[k])
      requires parts == TaggedEach(f, items) && goods == WithinEach(f.kind, items, 0) && |Concat(parts)| < LIMIT64
      requires Emitted(s, State(), true, true, Concat(parts[..k])) && All(goods[..k])
      modifies this`written, this`buffer
      ensures Valid()
      ensures if ok then All(goods[..k + 1]) && Emitted(s, State(), true, true, Concat(parts[..k + 1]))
              else Emitted(s, State(), false, All(goods), Concat(parts))
      decreases f.kind, 5
    {
      ghost var t := State();
      ConcatPrefix(parts, k);
      ok := EncodeTagged(f, items[k]);
      EmittedPart(s, t, State(), ok, parts, goods, k);
    }

    /** Whether a field without a flag may be left out. */
    static method CheckDefault(d: Desc, m: Msg, i: nat) returns (zero: bool)
      requires DescOk(d) && TypedMsg(d, m) && i < |d.fields|
      ensures zero == ZeroField(d, m, i)
      decreases d, 0
    {
      var f, slot := d.fields[i], m.slots[i];
      assert FieldOk(f, d.unions) && TypedSlot(f, slot);
      assert f.rule.Singular? ==> TypeOk(f.kind) && Typed(f.kind, slot.v);
      match f.rule {
        case Required => return false;
        case Repeated(_) => return slot.items == [];
        case FixedCount(_) => return false;
        case Oneof(u) => return m.unions[u].None?;
        case Optional => return slot.o.None?;
        case Singular =>
      }
      match f.kind {
        case ByteArray(_) => zero := slot.v.bytes == [];
        case Text(_) => zero := slot.v.bytes == [];
        case FixedBytes(length) => zero := length == 0;
        case SubMessage(sub) => zero := CheckAllDefault(sub, slot.v.msg);
        case Bool => zero := !slot.v.on;
        case _ => zero := slot.v.n == 0;
      }
    }

    /** Whether every field of a message is as it would be left out. */
    static method CheckAllDefault(d: Desc, m: Msg) returns (zero: bool)
      requires DescOk(d) && TypedMsg(d, m)
      ensures zero == ZeroMsg(d, m)
      decreases d, 1
    {
      for i := 0 to |d.fields|
        invariant forall k :: 0 <= k < i ==> ZeroField(d, m, k)
      {
        zero := CheckDefault(d, m, i);
        if !zero {
          return;
        }
      }
      zero := true;
    }
  }

  /** The size of a message's encoding, found without writing anything. */
  method GetEncodedSize(d: Desc, m: Msg) returns (ok: bool, size: nat)
    requires DescOk(d) && TypedMsg(d, m) && |Encoding(d, m)| < LIMIT64
    ensures ok == WithinMsg(d, m, 0) && (ok ==> size == |Encoding(d, m)|)
  {
    var stream := new OStream.Sizing();
    ok := stream.Encode(d, m);
    size := stream.written;
  }

  /** Counting agrees with writing: a buffer of `room` bytes takes a message exactly when
      the counted size is no more than that, and then holds its encoding. */
  method SizeThenEncode(d: Desc, m: Msg, room: nat) returns (counted: bool, size: nat, ok: bool, bytes: Bytes)
    requires DescOk(d) && TypedMsg(d, m) && |Encoding(d, m)| < LIMIT64
    ensures counted == WithinMsg(d, m, 0) && (counted ==> size == |Encoding(d, m)|)
    ensures ok == (counted && size <= room)
    ensures ok ==> bytes == Encoding(d, m) && size == |bytes|
    ensures |bytes| <= room
  {
    counted, size := GetEncodedSize(d, m);
    var stream := new OStream.FromBuffer([], room);
    ok := stream.Encode(d, m);
    bytes := stream.buffer;
    assert [] + Encoding(d, m) == Encoding(d, m);
  }
}
