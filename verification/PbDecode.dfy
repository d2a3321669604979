/** The decoder of nanopb (nanopb/pb_decode.c, nanopb/pb_common.c).

    Ghost parameters name what may lie ahead in the input, and what follows it: contracts
    say that it is then read back; the code takes any input. */
module PbDecode {
  import opened Entries
  import opened Coding
  import opened Pb
  import opened PbRecords
  import PbEncode

  // ------------------------------------------------------------------ bytes

  /** Part of a buffer that is still to be read. */
  class IStream {
    const data: Bytes
    var pos: nat
    var left: nat

    ghost predicate Valid()
      reads this
    {
      pos + left <= |data|
    }

    ghost function Rest(): Bytes
      requires Valid()
      reads this
    {
      data[pos..pos + left]
    }

    constructor (data: Bytes)
      ensures Valid() && Rest() == data && this.data == data && pos == 0 && left == |data|
    {
      this.data, pos, left := data, 0, |data|;
    }

    /** A part of another stream's buffer. */
    constructor Part(data: Bytes, pos: nat, left: nat)
      requires pos + left <= |data|
      ensures Valid() && this.data == data && this.pos == pos && this.left == left
    {
      this.data, this.pos, this.left := data, pos, left;
    }

    /** Reading goes on where it was; when it succeeds the end stays where it is. */
    twostate predicate Moved(ok: bool)
      reads this
    {
      Valid() && left <= old(left) && pos + left <= old(pos) + old(left) && (ok ==> pos + left == old(pos) + old(left))
    }

    method Read(count: nat) returns (ok: bool, bytes: Bytes)
      requires Valid()
      modifies this
      ensures Moved(ok) && ok == (count <= old(left))
      ensures ok ==> bytes == old(Rest())[..count] && Rest() == old(Rest())[count..] && left == old(left) - count
      ensures !ok ==> pos == old(pos) && left == old(left)
    {
      if left < count {
        return false, [];
      }
      bytes := data[pos..pos + count];
      pos, left := pos + count, left - count;
      ok := true;
    }

    method ReadByte() returns (ok: bool, byte: Byte)
      requires Valid()
      modifies this
      ensures Moved(ok) && ok == (old(left) > 0)
      ensures ok ==> [byte] + Rest() == old(Rest()) && left == old(left) - 1
      ensures !ok ==> pos == old(pos) && left == old(left)
    {
      if left == 0 {
        return false, 0;
      }
      byte := data[pos];
      pos, left := pos + 1, left - 1;
      ok := true;
    }

    // --------------------------------------------------------------- varints

    /** Seven bits a byte, truncated to 64 bits. The bits so far lie below the next seven,
        so that setting bits adds them. */
    method DecodeVarint(ghost v: nat, ghost tail: Bytes) returns (ok: bool, value: nat)
      requires Valid()
      modifies this
      ensures Moved(ok) && (ok ==> left < old(left)) && value < LIMIT64
      ensures v < LIMIT64 && old(Rest()) == Varint(v) + tail ==> ok && value == v && Rest() == tail
    {
      ghost var good := v < LIMIT64 && Rest() == Varint(v) + tail;
      ghost var todo: nat := v;
      value := 0;
      var k, more := 0, true;
      while more
        invariant k <= 10 && Moved(true) && value < LIMIT64 && (k > 0 ==> left < old(left)) && (!more ==> k > 0)
        invariant good && more ==> Rest() == Varint(todo) + tail && v == value + todo * Scale(k) && k < 10
        invariant good && !more ==> value == v && Rest() == tail
        decreases more, left
      {
        if k == 10 {
          return false, 0;
        }
        var byte: Byte;
        ok, byte := ReadByte();
        if !ok {
          return false, 0;
        }
        if good {
          VarintHead(todo, byte, Rest(), tail);
          TakeByte(k, value, todo, v, byte, 10, LIMIT64);
        }
        value := Add(value, byte % 128, k, LIMIT64);
        k := k + 1;
        todo := todo / 128;
        more := byte >= 128;
      }
      ok := true;
    }

    static lemma VarintHead(v: nat, byte: Byte, rest: Bytes, tail: Bytes)
      requires [byte] + rest == Varint(v) + tail
      ensures byte == if v < 128 then v else v % 128 + 128
      ensures rest == if v < 128 then tail else Varint(v / 128) + tail
    {
      assert ([byte] + rest)[0] == byte && ([byte] + rest)[1..] == rest;
      assert (Varint(v) + tail)[1..] == Varint(v)[1..] + tail;
    }

    /** The same for 32 bits; bytes past them may only repeat the sign. */
    method DecodeVarint32(ghost v: nat, ghost tail: Bytes) returns (ok: bool, eof: bool, value: nat)
      requires Valid()
      modifies this
      ensures Moved(ok) && (ok ==> left < old(left)) && value < LIMIT32 && eof == (old(left) == 0)
      ensures eof ==> !ok && pos == old(pos) && left == old(left)
      ensures v < LIMIT32 && old(Rest()) == Varint(v) + tail ==> ok && value == v && Rest() == tail
    {
      ghost var good := v < LIMIT32 && Rest() == Varint(v) + tail;
      var byte: Byte;
      eof := left == 0;
      ok, byte := ReadByte();
      if !ok {
        return false, eof, 0;
      }
      if good {
        VarintHead(v, byte, Rest(), tail);
      }
      if byte < 128 {
        return true, eof, byte;
      }
      ok, value := DecodeMultibyte(byte, v, tail);
    }

    /** The bytes behind a first one that has its top bit set. */
    method DecodeMultibyte(first: Byte, ghost v: nat, ghost tail: Bytes) returns (ok: bool, value: nat)
      requires Valid() && first >= 128
      modifies this
      ensures Moved(ok) && value < LIMIT32
      ensures 128 <= v < LIMIT32 && first == v % 128 + 128 && old(Rest()) == Varint(v / 128) + tail ==>
                ok && value == v && Rest() == tail
    {
      ghost var good := 128 <= v < LIMIT32 && first == v % 128 + 128 && Rest() == Varint(v / 128) + tail;
      ghost var todo: nat := v / 128;
      var bitpos, byte := 7, first;
      value := first % 128;
      while byte >= 128
        invariant 7 <= bitpos && bitpos % 7 == 0 && Moved(true) && value < LIMIT32
        invariant good && byte >= 128 ==>
                    Rest() == Varint(todo) + tail && bitpos <= 28
                    && v == value + todo * Scale(bitpos / 7)
        invariant good && byte < 128 ==>
                    value == v && Rest() == tail && (bitpos == 35 ==> byte < 16)
        decreases byte >= 128, left
      {
        ok, byte := ReadByte();
        if !ok {
          return false, 0;
        }
        if good {
          VarintHead(todo, byte, Rest(), tail);
          TakeByte(bitpos / 7, value, todo, v, byte, 5, LIMIT32);
          LastByte(bitpos / 7, value, todo, v);
        }
        if bitpos >= 32 {
          var signExtension := if bitpos < 63 then 0xFF else 0x01;
          if byte % 128 != 0 && (value < Half(4) || byte != signExtension) {
            return false, 0;
          }
        } else {
          value := Add(value, byte % 128, bitpos / 7, LIMIT32);
        }
        bitpos := bitpos + 7;
        todo := todo / 128;
      }
      if bitpos == 35 && byte / 16 % 8 != 0 {
        return false, 0;
      }
      ok := true;
    }

    static lemma LastByte(k: nat, value: nat, todo: nat, v: nat)
      requires 1 <= k <= 4 && v == value + todo * Scale(k) && v < LIMIT32
      ensures k == 4 ==> todo < 16
    {
    }

    static lemma TagFits(tag: nat, wire: nat)
      requires 0 < tag < LIMIT_TAG && wire < 8
      ensures 0 < tag * 8 + wire < LIMIT32 && (tag * 8 + wire) % 8 == wire && (tag * 8 + wire) / 8 == tag
    {
    }

    method DecodeTag(ghost tag0: nat, ghost wire0: nat, ghost tail: Bytes) returns (ok: bool, eof: bool, wireType: nat, tag: nat)
      requires Valid()
      modifies this
      ensures Moved(ok || eof) && (ok ==> left < old(left))
      ensures 0 < tag0 < LIMIT_TAG && wire0 < 8 && old(Rest()) == Varint(tag0 * 8 + wire0) + tail ==>
                ok && wireType == wire0 && tag == tag0 && Rest() == tail
    {
      ghost var both := tag0 * 8 + wire0;
      if 0 < tag0 < LIMIT_TAG && wire0 < 8 {
        TagFits(tag0, wire0);
      }
      var temp: nat;
      wireType, tag := 0, 0;
      ok, eof, temp := DecodeVarint32(both, tail);
      if !ok {
        return;
      }
      if temp == 0 {
        eof := true;
        return false, true, 0, 0;
      }
      wireType, tag := temp % 8, temp / 8;
    }

    // --------------------------------------------------------------- skipping

    method SkipVarint() returns (ok: bool)
      requires Valid()
      modifies this
      ensures Moved(ok)
    {
      var byte: Byte := 128;
      while byte >= 128
        invariant Moved(true)
        decreases byte >= 128, left
      {
        ok, byte := ReadByte();
        if !ok {
          return;
        }
      }
      ok := true;
    }

    method SkipString() returns (ok: bool)
      requires Valid()
      modifies this
      ensures Moved(ok)
    {
      var eof, length, bytes;
      ok, eof, length := DecodeVarint32(0, []);
      if ok {
        ok, bytes := Read(length);
      }
    }

    method SkipField(wireType: nat) returns (ok: bool)
      requires Valid()
      modifies this
      ensures Moved(ok)
    {
      var bytes;
      if wireType == WT_VARINT {
        ok := SkipVarint();
      } else if wireType == WT_64BIT {
        ok, bytes := Read(8);
      } else if wireType == WT_STRING {
        ok := SkipString();
      } else if wireType == WT_32BIT {
        ok, bytes := Read(4);
      } else {
        ok := false;
      }
    }

    // ------------------------------------------------------------- substreams

    /** Reads a length, and gives so many bytes away. */
    method MakeStringSubstream(ghost b: Bytes, ghost tail: Bytes) returns (ok: bool, sub: IStream)
      requires Valid()
      modifies this
      ensures fresh(sub) && sub.Valid() && sub.data == data && Valid()
      ensures left <= old(left) && pos + left <= old(pos) + old(left)
      ensures ok ==> sub.pos == pos && pos + sub.left + left == old(pos) + old(left) && sub.left + left < old(left)
      ensures |b| < LIMIT32 && old(Rest()) == Prefixed(b) + tail ==>
                ok && sub.Rest() == b && data[pos + |b|..pos + |b| + left] == tail && left == |tail|
    {
      var eof, size;
      assert Prefixed(b) + tail == Varint(|b|) + (b + tail);
      ok, eof, size := DecodeVarint32(|b|, b + tail);
      if !ok || left < size {
        sub := new IStream.Part(data, pos, 0);
        return false, sub;
      }
      ghost var rest := Rest();
      sub := new IStream.Part(data, pos, size);
      left := left - size;
      if rest == b + tail && size == |b| {
        assert rest[..|b|] == data[pos..pos + |b|] && rest[|b|..] == data[pos + |b|..pos + |b| + left];
      }
    }

    /** Goes on behind a substream; what is left of it is skipped. */
    method CloseStringSubstream(sub: IStream) returns (ok: bool)
      requires Valid() && sub.Valid() && sub != this && sub.data == data
      modifies this, sub
      ensures ok && pos == old(sub.pos) + old(sub.left) && left == old(left)
    {
      ok := true;
      if sub.left > 0 {
        var bytes;
        ok, bytes := sub.Read(sub.left);
      }
      pos := sub.pos;
    }
  }

  // ----------------------------------------------------------- field iterator

  /** Goes round the fields of a message type. */
  class FieldIter {
    const fields: seq<Field>
    var pos: nat
    var requiredIndex: nat

    ghost predicate Valid()
      reads this
    {
      (if fields == [] then pos == 0 else pos < |fields|) && requiredIndex == RequiredBefore(fields, pos)
    }

    constructor (fields: seq<Field>)
      ensures Valid() && this.fields == fields && pos == 0
    {
      this.fields, pos, requiredIndex := fields, 0, 0;
    }

    /** The next field, or, behind the last one, the first again. */
    method Next() returns (more: bool)
      requires Valid()
      modifies this
      ensures Valid() && more == (old(pos) + 1 < |fields|) && pos == if more then old(pos) + 1 else 0
    {
      if fields == [] {
        return false;
      }
      var required := fields[pos].rule.Required?;
      pos := pos + 1;
      if pos == |fields| {
        pos, requiredIndex := 0, 0;
        return false;
      }
      if required {
        requiredIndex := requiredIndex + 1;
      }
      more := true;
    }

    /** Looks for a tag from the current field on, all the way round. The terminator of an
        empty list has the tag zero. */
    method Find(tag: nat) returns (found: bool)
      requires Valid()
      modifies this
      ensures Valid()
      ensures fields != [] ==> found == exists i :: 0 <= i < |fields| && fields[i].tag == tag
      ensures fields != [] && found ==> fields[pos].tag == tag
      ensures !found ==> pos == old(pos)
      ensures fields == [] ==> found == (tag == 0)
    {
      if fields == [] {
        return tag == 0;
      }
      var start := pos;
      ghost var k: nat := 0;
      while true
        invariant Valid() && k < |fields| && pos == Around(start, k, |fields|)
        invariant forall j: nat :: j < k ==> fields[Around(start, j, |fields|)].tag != tag
        decreases |fields| - k
      {
        if fields[pos].tag == tag {
          return true;
        }
        var more := Next();
        k := k + 1;
        if pos == start {
          AllAround(fields, start, tag);
          return false;
        }
      }
    }

    /** Required fields are counted to the end of the list. */
    method RequiredCount() returns (count: nat)
      requires Valid()
      modifies this
      ensures Valid() && count == RequiredBefore(fields, |fields|)
    {
      if fields == [] {
        return 0;
      }
      var more, last := true, Required;
      count := 0;
      while more
        invariant Valid()
        invariant !more ==> count == RequiredBefore(fields, |fields| - 1) && last == fields[|fields| - 1].rule
        decreases more, |fields| - pos
      {
        count, last := requiredIndex, fields[pos].rule;
        more := Next();
      }
      if last.Required? {
        count := count + 1;
      }
    }
  }

  function Around(start: nat, k: nat, n: nat): nat
    requires start < n && k <= n
  {
    if start + k < n then start + k else start + k - n
  }

  lemma AllAround(fields: seq<Field>, start: nat, tag: nat)
    requires start < |fields| && forall j: nat :: j < |fields| ==> fields[Around(start, j, |fields|)].tag != tag
    ensures forall i :: 0 <= i < |fields| ==> fields[i].tag != tag
  {
    forall i: nat | i < |fields|
      ensures fields[i].tag != tag
    {
      var j := if i >= start then i - start else i + |fields| - start;
      assert Around(start, j, |fields|) == i;
    }
  }

  // ----------------------------------------------------------------- scalars

  /** The lowest bytes of a number. */
  function Unsigned(n: int, size: nat): (r: nat)
    requires SizeOk(size)
    ensures r < 2 * Half(size) && (0 <= n < 2 * Half(size) ==> r == n)
  {
    if size == 1 then n % 0x100 else if size == 2 then n % 0x1_0000 else if size == 4 then n % LIMIT32 else n % LIMIT64
  }

  /** The same, read as a signed number. */
  function Signed(n: int, size: nat): (r: int)
    requires SizeOk(size)
    ensures -Half(size) <= r < Half(size)
    ensures -Half(size) <= n < Half(size) ==> r == n
  {
    var low := Unsigned(n, size);
    if low >= Half(size) then low - 2 * Half(size) else low
  }

  lemma SignedBits(n: int)
    requires -Half(8) <= n < Half(8)
    ensures Signed(n % LIMIT64, 8) == n
    ensures -Half(4) <= n < Half(4) ==> Signed(n % LIMIT64, 4) == n
  {
    if n >= 0 {
      SmallRemainder(n, LIMIT64);
    } else {
      NegativeRemainder(n, LIMIT64);
      if -Half(4) <= n {
        assert n + LIMIT64 == (LIMIT32 - 1) * LIMIT32 + (n + LIMIT32);
        assert (n + LIMIT64) % LIMIT32 == n + LIMIT32;
      }
    }
  }

  lemma SmallRemainder(n: nat, limit: nat)
    requires n < limit
    ensures n % limit == n
  {
  }

  lemma NegativeRemainder(n: int, limit: nat)
    requires 0 <= n + limit && n < 0
    ensures n % limit == n + limit
  {
  }

  /** A text ends at its first zero. */
  function CString(bytes: Bytes): (r: Bytes)
    ensures |r| <= |bytes| && forall i :: 0 <= i < |r| ==> r[i] != 0
    ensures (forall i :: 0 <= i < |bytes| ==> bytes[i] != 0) ==> r == bytes
  {
    if bytes == [] || bytes[0] == 0 then []
    else
      var rest := CString(bytes[1..]);
      assert (forall i :: 0 <= i < |bytes| ==> bytes[i] != 0) ==>
          (forall i :: 0 <= i < |bytes[1..]| ==> bytes[1..][i] == bytes[i + 1] != 0);
      [bytes[0]] + rest
  }

  /** Signed, unsigned and zigzag numbers; a number too large for its field is an error. */
  method DecodeNumber(stream: IStream, kind: FieldType, ghost n: int, ghost tail: Bytes) returns (ok: bool, r: int)
    requires stream.Valid() && TypeOk(kind) && (kind.VarInt? || kind.UVarInt? || kind.SVarInt?)
    modifies stream
    ensures stream.Moved(ok) && Typed(kind, Num(r))
    ensures Typed(kind, Num(n)) && old(stream.Rest()) == Payload(kind, Num(n)) + tail ==> ok && r == n && stream.Rest() == tail
  {
    ghost var bits: nat := if kind.SVarInt? then ZigZag(n) else n % LIMIT64;
    var value: nat;
    ok, value := stream.DecodeVarint(bits, tail);
    if !ok {
      return false, 0;
    }
    var number := FromBits(kind, value);
    r := Clamped(kind, number);
    if Typed(kind, Num(n)) {
      NumberComesBack(kind, n);
    }
    ok := r == number;
  }

  function FromBits(kind: FieldType, value: nat): int {
    match kind
    case VarInt(size) => if size == 8 then Signed(value, 8) else Signed(value, 4)
    case SVarInt(_) => if value % 2 == 1 then -(value / 2) - 1 else value / 2
    case _ => value
  }

  /** The number as its field can hold it. */
  function Clamped(kind: FieldType, number: int): (r: int)
    requires TypeOk(kind) && (kind.VarInt? || kind.UVarInt? || kind.SVarInt?)
    ensures Typed(kind, Num(r)) && (Typed(kind, Num(number)) ==> r == number)
  {
    match kind
    case UVarInt(size) => Unsigned(number, size)
    case VarInt(size) => Signed(number, size)
    case SVarInt(size) => Signed(number, size)
  }

  lemma NumberComesBack(kind: FieldType, n: int)
    requires TypeOk(kind) && (kind.VarInt? || kind.UVarInt? || kind.SVarInt?) && Typed(kind, Num(n))
    ensures var bits := if kind.SVarInt? then ZigZag(n) else n % LIMIT64;
            bits < LIMIT64 && FromBits(kind, bits) == n
  {
    if kind.VarInt? {
      SignedBits(n);
    } else if kind.UVarInt? {
      SmallRemainder(n, LIMIT64);
    }
  }

  method DecodeBool(stream: IStream, ghost on: bool, ghost tail: Bytes) returns (ok: bool, r: bool)
    requires stream.Valid()
    modifies stream
    ensures stream.Moved(ok)
    ensures old(stream.Rest()) == Payload(Bool, Flag(on)) + tail ==> ok && r == on && stream.Rest() == tail
  {
    var eof, value;
    ok, eof, value := stream.DecodeVarint32(if on then 1 else 0, tail);
    r := value != 0;
  }

  lemma WordHead(b: Bytes, n: nat, tail: Bytes)
    requires n < LIMIT32 && b == Fixed32(n) + tail
    ensures DecodeFixed32(b[..4], 0) == n && b[4..] == tail
  {
    assert b[..4][0..0 + 4] == Fixed32(n);
    Fixed32RoundTrip(b[..4], 0, n);
  }

  lemma LongHead(b: Bytes, n: nat, tail: Bytes)
    requires n < LIMIT64 && b == Fixed64(n) + tail
    ensures DecodeFixed64(b[..8], 0) == n && b[8..] == tail
  {
    var low, high := n % LIMIT32, n / LIMIT32;
    assert b[..8][0..0 + 4] == Fixed32(low) && b[..8][4..4 + 4] == Fixed32(high);
    Fixed32RoundTrip(b[..8], 0, low);
    Fixed32RoundTrip(b[..8], 4, high);
  }

  method DecodeWord32(stream: IStream, ghost n: nat, ghost tail: Bytes) returns (ok: bool, r: nat)
    requires stream.Valid()
    modifies stream
    ensures stream.Moved(ok) && r < LIMIT32
    ensures n < LIMIT32 && old(stream.Rest()) == Fixed32(n) + tail ==> ok && r == n && stream.Rest() == tail
  {
    var bytes;
    ghost var rest := stream.Rest();
    ok, bytes := stream.Read(4);
    r := 0;
    if ok {
      if n < LIMIT32 && rest == Fixed32(n) + tail {
        WordHead(rest, n, tail);
      }
      r := DecodeFixed32(bytes, 0);
    }
  }

  method DecodeWord64(stream: IStream, ghost n: nat, ghost tail: Bytes) returns (ok: bool, r: nat)
    requires stream.Valid()
    modifies stream
    ensures stream.Moved(ok) && r < LIMIT64
    ensures n < LIMIT64 && old(stream.Rest()) == Fixed64(n) + tail ==> ok && r == n && stream.Rest() == tail
  {
    var bytes;
    ghost var rest := stream.Rest();
    ok, bytes := stream.Read(8);
    r := 0;
    if ok {
      if n < LIMIT64 && rest == Fixed64(n) + tail {
        LongHead(rest, n, tail);
      }
      r := DecodeFixed64(bytes, 0);
    }
  }

  /** Bytes behind their length, as far as they fit their storage. */
  method DecodeData(stream: IStream, kind: FieldType, start: Bytes, ghost b: Bytes, ghost tail: Bytes) returns (ok: bool, r: Bytes)
    requires stream.Valid() && TypeOk(kind) && (kind.ByteArray? || kind.Text? || kind.FixedBytes?) && Typed(kind, Data(start))
    modifies stream
    ensures stream.Moved(ok) && Typed(kind, Data(r))
    ensures |b| < LIMIT32 && Typed(kind, Data(b)) && Within(kind, Data(b), 1) && old(stream.Rest()) == Prefixed(b) + tail ==>
              ok && r == b && stream.Rest() == tail
    ensures |b| < LIMIT32 && kind.Text? && old(stream.Rest()) == Prefixed(b) + tail ==> ok == (|b| < kind.size)
  {
    var eof, size;
    r := start;
    ghost var good := |b| < LIMIT32 && Typed(kind, Data(b)) && Within(kind, Data(b), 1) && stream.Rest() == Prefixed(b) + tail;
    assert Prefixed(b) + tail == Varint(|b|) + (b + tail);
    ok, eof, size := stream.DecodeVarint32(|b|, b + tail);
    if !ok {
      return;
    }
    if kind.FixedBytes? && size == 0 {
      r := seq(kind.length, _ => 0);
      return;
    }
    if !SizeFits(kind, size) {
      return false, start;
    }
    var bytes;
    ok, bytes := stream.Read(size);
    if ok {
      r := if kind.Text? then CString(bytes) else bytes;
      assert good ==> bytes == b;
    }
  }

  predicate SizeFits(kind: FieldType, size: nat) {
    match kind
    case ByteArray(capacity) => size <= capacity
    case Text(room) => size + 1 <= room
    case FixedBytes(length) => size == length
    case _ => false
  }

  // ------------------------------------------------------------ typed structs

  lemma {:induction false} ZeroIsTyped(kind: FieldType)
    requires TypeOk(kind)
    ensures Typed(kind, ZeroOf(kind))
    decreases kind
  {
    if kind.SubMessage? {
      DefaultIsTyped(kind.desc);
    }
  }

  lemma {:induction false} InitIsTyped(f: Field, unions: nat)
    requires FieldOk(f, unions)
    ensures Typed(f.kind, InitValue(f)) && Typed(f.kind, ZeroOf(f.kind))
    decreases f
  {
    ZeroIsTyped(f.kind);
  }

  lemma {:induction false} DefaultIsTyped(d: Desc)
    requires DescOk(d)
    ensures TypedMsg(d, Default(d))
    decreases d
  {
    forall i: nat | i < |d.fields|
      ensures TypedSlot(d.fields[i], Default(d).slots[i])
    {
      assert FieldOk(d.fields[i], d.unions);
      InitIsTyped(d.fields[i], d.unions);
    }
  }

  /** A typed struct takes a typed slot. */
  lemma SlotIsTyped(d: Desc, m: Msg, i: nat, slot: Slot)
    requires TypedMsg(d, m) && i < |d.fields| && TypedSlot(d.fields[i], slot)
    ensures TypedMsg(d, m.(slots := m.slots[i := slot]))
  {
  }

  /** A typed struct takes a typed choice. */
  lemma ChoiceIsTyped(d: Desc, m: Msg, i: nat, u: nat, v: Datum)
    requires TypedMsg(d, m) && i < |d.fields| && u < d.unions && IsChoice(d.fields[i], u, Choice(d.fields[i].tag, v))
    ensures TypedMsg(d, m.(unions := m.unions[u := Some(Choice(d.fields[i].tag, v))]))
  {
    var m' := m.(unions := m.unions[u := Some(Choice(d.fields[i].tag, v))]);
    forall w: nat | w < d.unions && m'.unions[w].Some?
      ensures exists j :: 0 <= j < |d.fields| && IsChoice(d.fields[j], w, m'.unions[w].value)
    {
      if w != u {
        assert m.unions[w] == m'.unions[w];
      }
    }
  }

  // ---------------------------------------------------------------- values

  /** A value whose payload may be read back. */
  ghost predicate Good(kind: FieldType, v: Datum) {
    Typed(kind, v) && Within(kind, v, 1) && |Payload(kind, v)| < LIMIT32
  }

  ghost predicate GoodMsg(d: Desc, m: Msg) {
    TypedMsg(d, m) && WithinMsg(d, m, 1) && |Encoding(d, m)| < LIMIT32
  }

  /** Reads one value as its field asks. A submessage goes on from what its struct holds,
      but an item of an array starts from default values. */
  method DecodeValue(stream: IStream, f: Field, start: Datum, ghost v: Datum, ghost tail: Bytes) returns (ok: bool, r: Datum)
    requires stream.Valid() && TypeOk(f.kind) && Typed(f.kind, start)
    modifies stream
    ensures stream.Moved(ok) && Typed(f.kind, r)
    ensures Good(f.kind, v) && old(stream.Rest()) == Payload(f.kind, v) + tail && Starts(f, start) ==>
              ok && r == RecoveredDatum(f.kind, v) && stream.Rest() == tail
    decreases f.kind, 1
  {
    match f.kind
    case SubMessage(d) =>
      var m;
      ok, m := DecodeSubMessage(stream, d, f.rule.Repeated? || f.rule.FixedCount?, start.msg,
                                if v.Struct? then v.msg else start.msg, tail);
      r := Struct(m);
    case Bool =>
      var on;
      ok, on := DecodeBool(stream, v.Flag? && v.on, tail);
      r := Flag(on);
    case Word32 =>
      ok, r := DecodeWord(stream, f.kind, v, tail);
    case Word64 =>
      ok, r := DecodeWord(stream, f.kind, v, tail);
    case ByteArray(_) =>
      var bytes;
      ok, bytes := DecodeData(stream, f.kind, start.bytes, if v.Data? then v.bytes else [], tail);
      r := Data(bytes);
    case Text(_) =>
      var bytes;
      ok, bytes := DecodeData(stream, f.kind, start.bytes, if v.Data? then v.bytes else [], tail);
      r := Data(bytes);
    case FixedBytes(_) =>
      var bytes;
      ok, bytes := DecodeData(stream, f.kind, start.bytes, if v.Data? then v.bytes else [], tail);
      r := Data(bytes);
    case _ =>
      var n;
      ok, n := DecodeNumber(stream, f.kind, if v.Num? then v.n else 0, tail);
      r := Num(n);
  }

  /** A submessage is read back as it was if its struct holds default values. */
  ghost predicate Starts(f: Field, start: Datum) {
    f.kind.SubMessage? && !f.rule.Repeated? && !f.rule.FixedCount? ==> start == Struct(Default(f.kind.desc))
  }

  method DecodeWord(stream: IStream, kind: FieldType, ghost v: Datum, ghost tail: Bytes) returns (ok: bool, r: Datum)
    requires stream.Valid() && (kind.Word32? || kind.Word64?)
    modifies stream
    ensures stream.Moved(ok) && Typed(kind, r)
    ensures Typed(kind, v) && old(stream.Rest()) == Payload(kind, v) + tail ==> ok && r == v && stream.Rest() == tail
  {
    ghost var n: nat := if Typed(kind, v) then v.n else 0;
    var word;
    if Typed(kind, v) {
      SmallRemainder(n, if kind.Word32? then LIMIT32 else LIMIT64);
    }
    if kind.Word32? {
      ok, word := DecodeWord32(stream, n, tail);
    } else {
      ok, word := DecodeWord64(stream, n, tail);
    }
    r := Num(word);
  }

  method DecodeSubMessage(stream: IStream, d: Desc, init: bool, start: Msg, ghost m: Msg, ghost tail: Bytes)
    returns (ok: bool, r: Msg)
    requires stream.Valid() && DescOk(d) && TypedMsg(d, start)
    modifies stream
    ensures stream.Moved(ok) && TypedMsg(d, r)
    ensures GoodMsg(d, m) && old(stream.Rest()) == Prefixed(Encoding(d, m)) + tail && (init || start == Default(d)) ==>
              ok && r == Recovered(d, m) && stream.Rest() == tail
    decreases d, 6
  {
    var sub;
    ok, sub := stream.MakeStringSubstream(Encoding(d, m), tail);
    if !ok {
      return false, start;
    }
    var status;
    if init {
      status, r := Decode(sub, d, m);
    } else {
      status, r := DecodeNoInit(sub, d, start, m);
    }
    ok := stream.CloseStringSubstream(sub);
    ok := ok && status;
  }

  /** Reads a message into a struct of default values. */
  method Decode(stream: IStream, d: Desc, ghost m: Msg) returns (ok: bool, r: Msg)
    requires stream.Valid() && DescOk(d)
    modifies stream
    ensures stream.Moved(ok) && TypedMsg(d, r)
    ensures GoodMsg(d, m) && old(stream.Rest()) == Encoding(d, m) ==> ok && r == Recovered(d, m) && stream.Rest() == []
    decreases d, 5
  {
    DefaultIsTyped(d);
    ok, r := DecodeNoInit(stream, d, Default(d), m);
  }

  // --------------------------------------------------------------- records

  /** All values may be read back; it comes into play where `AllGoodIs` is mentioned. */
  ghost predicate AllGood(kind: FieldType, body: seq<Datum>) {
    forall use: nat :: AllGoodIs(kind, body, use)
  }

  ghost predicate AllGoodIs(kind: FieldType, body: seq<Datum>, use: nat) {
    forall k :: 0 <= k < |body| ==> Good(kind, body[k])
  }

  lemma GoodAt(kind: FieldType, body: seq<Datum>, k: nat)
    requires AllGood(kind, body) && k < |body|
    ensures Good(kind, body[k])
  {
    assert AllGoodIs(kind, body, 0);
  }

  ghost predicate GoodRec(d: Desc, r: Rec) {
    r.i < |d.fields| && AllGood(d.fields[r.i].kind, r.body)
    && |Concat(Payloads(d.fields[r.i].kind, r.body))| < LIMIT32
  }

  /** What comes behind a record's tag. */
  ghost function RecPayload(d: Desc, r: Rec): Bytes
    requires r.i < |d.fields|
  {
    var body := Concat(Payloads(d.fields[r.i].kind, r.body));
    if r.packed then Prefixed(body) else body
  }

  /** The record that lies ahead is one for field `i` and fits in. */
  ghost predicate Coming(d: Desc, st: State, i: nat, wireType: nat, r: Rec, rest: Bytes, tail: Bytes) {
    Ready(d, st, r) && GoodRec(d, r) && r.i == i
    && wireType == (if r.packed then WT_STRING else WireType(d.fields[i].kind)) && rest == RecPayload(d, r) + tail
  }

  ghost predicate StateOk(d: Desc, st: State) {
    TypedMsg(d, st.msg)
    && (st.fixedField.Some? ==> st.fixedField.value < |d.fields| && d.fields[st.fixedField.value].rule.FixedCount?)
  }

  lemma ConcatHead(parts: seq<Bytes>)
    requires parts != []
    ensures Concat(parts) == parts[0] + Concat(parts[1..])
  {
    assert parts == [parts[0]] + parts[1..];
    ConcatSplit([parts[0]], parts[1..]);
    ConcatOne(parts[0]);
  }

  lemma PayloadNotEmpty(kind: FieldType, v: Datum)
    requires Packable(kind) && Typed(kind, v)
    ensures Payload(kind, v) != []
  {
  }

  /** The values of a packed array that are still to be read. */
  ghost function Remaining(kind: FieldType, body: seq<Datum>, k: nat): Bytes
    requires k <= |body|
  {
    Concat(Payloads(kind, body[k..]))
  }

  lemma RemainingStep(kind: FieldType, body: seq<Datum>, k: nat)
    requires k < |body|
    ensures Remaining(kind, body, k) == Payload(kind, body[k]) + Remaining(kind, body, k + 1)
  {
    ConcatHead(Payloads(kind, body[k..]));
    assert Payloads(kind, body[k..])[1..] == Payloads(kind, body[k + 1..]);
  }

  /** The items read so far are the first ones, and the others lie ahead. */
  ghost predicate ItemsAhead(kind: FieldType, body: seq<Datum>, got: seq<Datum>, rest: Bytes) {
    AllGood(kind, body) && |got| <= |body| && rest == Remaining(kind, body, |got|) && got == RecoveredAll(kind, body)[..|got|]
  }

  lemma ItemsBegin(kind: FieldType, body: seq<Datum>, rest: Bytes)
    requires AllGood(kind, body) && rest == Concat(Payloads(kind, body))
    ensures ItemsAhead(kind, body, [], rest)
  {
    assert body[0..] == body;
  }

  lemma ItemsEnd(kind: FieldType, body: seq<Datum>, got: seq<Datum>, rest: Bytes)
    requires Packable(kind) && ItemsAhead(kind, body, got, rest)
    ensures rest == [] || |got| == |body| ==> got == RecoveredAll(kind, body) && rest == []
  {
    if |got| < |body| {
      GoodAt(kind, body, |got|);
      RemainingStep(kind, body, |got|);
      PayloadNotEmpty(kind, body[|got|]);
    } else {
      assert RecoveredAll(kind, body)[..|body|] == RecoveredAll(kind, body);
      assert Payloads(kind, body[|body|..]) == [];
    }
  }

  /** Reads values up to the end of the stream or of the room. */
  method DecodeItems(sub: IStream, f: Field, room: nat, ghost body: seq<Datum>) returns (ok: bool, got: seq<Datum>)
    requires sub.Valid() && TypeOk(f.kind) && Packable(f.kind)
    modifies sub
    ensures sub.Moved(ok) && |got| <= room && forall k :: 0 <= k < |got| ==> Typed(f.kind, got[k])
    ensures AllGood(f.kind, body) && |body| <= room && old(sub.Rest()) == Concat(Payloads(f.kind, body)) ==>
              ok && got == RecoveredAll(f.kind, body) && sub.left == 0
    decreases f.kind, 3
  {
    ghost var good := AllGood(f.kind, body) && |body| <= room && sub.Rest() == Concat(Payloads(f.kind, body));
    if good {
      ItemsBegin(f.kind, body, sub.Rest());
    }
    ok, got := true, [];
    while ok && sub.left > 0 && |got| < room
      invariant sub.Moved(ok) && |got| <= room && forall k :: 0 <= k < |got| ==> Typed(f.kind, got[k])
      invariant good ==> ok && ItemsAhead(f.kind, body, got, sub.Rest())
      decreases room - |got|, ok
    {
      ok, got := DecodeNthItem(sub, f, got, body);
    }
    if good {
      ItemsEnd(f.kind, body, got, sub.Rest());
    }
  }

  method DecodeNthItem(sub: IStream, f: Field, got: seq<Datum>, ghost body: seq<Datum>) returns (ok: bool, got': seq<Datum>)
    requires sub.Valid() && sub.left > 0 && TypeOk(f.kind) && Packable(f.kind)
    modifies sub
    ensures sub.Moved(ok) && got <= got' && |got'| == (if ok then |got| + 1 else |got|)
    ensures ok ==> Typed(f.kind, got'[|got|])
    ensures ItemsAhead(f.kind, body, got, old(sub.Rest())) ==> ok && ItemsAhead(f.kind, body, got', sub.Rest())
    decreases f.kind, 2
  {
    ghost var k, good := |got|, ItemsAhead(f.kind, body, got, sub.Rest());
    if good {
      ItemsEnd(f.kind, body, got, sub.Rest());
      GoodAt(f.kind, body, k);
      RemainingStep(f.kind, body, k);
    }
    ZeroIsTyped(f.kind);
    var v;
    ok, v := DecodeValue(sub, f, ZeroOf(f.kind), if good then body[k] else ZeroOf(f.kind),
                         if good then Remaining(f.kind, body, k + 1) else []);
    got' := if ok then got + [v] else got;
    assert good ==> RecoveredAll(f.kind, body)[..k + 1] == RecoveredAll(f.kind, body)[..k] + [v];
  }

  /** Where an array is to go on. */
  function ArraySize(st: State, i: nat, f: Field): nat
    requires i < |st.msg.slots| && st.msg.slots[i].Many?
  {
    if f.rule.FixedCount? then SizeSoFar(st, i) else |st.msg.slots[i].items|
  }

  /** Puts items behind those that an array has. */
  function WithItems(d: Desc, st: State, i: nat, got: seq<Datum>): State
    requires i < |d.fields| && i < |st.msg.slots| && st.msg.slots[i].Many?
  {
    var f := d.fields[i];
    var size := ArraySize(st, i, f);
    var slots := if got == [] then st.msg.slots else st.msg.slots[i := Stored(f, st.msg.slots[i], size, got)];
    var st' := st.(msg := st.msg.(slots := slots));
    if f.rule.FixedCount? then st'.(fixedField := Some(i), fixedSize := size + |got|) else st'
  }

  lemma ItemsAreTyped(d: Desc, st: State, i: nat, got: seq<Datum>)
    requires StateOk(d, st) && i < |d.fields| && (d.fields[i].rule.Repeated? || d.fields[i].rule.FixedCount?)
    requires st.msg.slots[i].Many? && forall k :: 0 <= k < |got| ==> Typed(d.fields[i].kind, got[k])
    ensures StateOk(d, WithItems(d, st, i, got))
  {
    var f, slot := d.fields[i], st.msg.slots[i];
    assert TypedSlot(f, slot);
    if got != [] {
      var slot' := Stored(f, slot, ArraySize(st, i, f), got);
      assert TypedSlot(f, slot');
      SlotIsTyped(d, st.msg, i, slot');
    }
  }

  lemma ItemsApply(d: Desc, st: State, r: Rec)
    requires Ready(d, st, r) && (d.fields[r.i].rule.Repeated? || d.fields[r.i].rule.FixedCount?)
    ensures st.msg.slots[r.i].Many? && ArraySize(st, r.i, d.fields[r.i]) + |r.body| <= d.fields[r.i].rule.max
    ensures WithItems(d, st, r.i, RecoveredAll(d.fields[r.i].kind, r.body)) == Apply(d, st, r)
  {
  }

  /** What a record of a packed array brings. */
  lemma PackedIsComing(d: Desc, st: State, i: nat, r: Rec, rest: Bytes, tail: Bytes)
    requires Coming(d, st, i, WT_STRING, r, rest, tail) && StateOk(d, st) && i < |d.fields| && Packable(d.fields[i].kind)
    requires d.fields[i].rule.Repeated? || d.fields[i].rule.FixedCount?
    ensures var kind, b := d.fields[i].kind, Concat(Payloads(d.fields[i].kind, r.body));
            st.msg.slots[i].Many? && AllGood(kind, r.body) && ArraySize(st, i, d.fields[i]) + |r.body| <= d.fields[i].rule.max
            && |b| < LIMIT32 && rest == Prefixed(b) + tail && WithItems(d, st, i, RecoveredAll(kind, r.body)) == Apply(d, st, r)
  {
    ItemsApply(d, st, r);
  }

  lemma ArrayIsMany(d: Desc, st: State, i: nat)
    requires StateOk(d, st) && i < |d.fields| && (d.fields[i].rule.Repeated? || d.fields[i].rule.FixedCount?)
    ensures st.msg.slots[i].Many?
  {
    assert TypedSlot(d.fields[i], st.msg.slots[i]);
  }

  /** A packed array: its values lie in a substream. */
  method DecodePacked(stream: IStream, d: Desc, i: nat, max: nat, st: State, ghost r: Rec, ghost tail: Bytes)
    returns (ok: bool, z: State)
    requires stream.Valid() && DescOk(d) && StateOk(d, st) && i < |d.fields| && Packable(d.fields[i].kind)
    requires d.fields[i].rule == Repeated(max) || d.fields[i].rule == FixedCount(max)
    modifies stream
    ensures stream.Moved(ok) && StateOk(d, z)
    ensures Coming(d, st, i, WT_STRING, r, old(stream.Rest()), tail) ==> ok && z == Apply(d, st, r) && stream.Rest() == tail
    decreases d.fields[i].kind, 6
  {
    ghost var body := [];
    ArrayIsMany(d, st, i);
    if Coming(d, st, i, WT_STRING, r, stream.Rest(), tail) {
      PackedIsComing(d, st, i, r, stream.Rest(), tail);
      body := r.body;
    }
    ok, z := DecodePrefixedItems(stream, d, i, max, st, body, tail);
  }

  /** Items in a substream. */
  method DecodePrefixedItems(stream: IStream, d: Desc, i: nat, max: nat, st: State, ghost body: seq<Datum>, ghost tail: Bytes)
    returns (ok: bool, z: State)
    requires stream.Valid() && DescOk(d) && StateOk(d, st) && i < |d.fields| && Packable(d.fields[i].kind)
    requires d.fields[i].rule == Repeated(max) || d.fields[i].rule == FixedCount(max)
    requires st.msg.slots[i].Many?
    modifies stream
    ensures stream.Moved(ok) && StateOk(d, z)
    ensures var kind, b := d.fields[i].kind, Concat(Payloads(d.fields[i].kind, body));
            AllGood(kind, body) && ArraySize(st, i, d.fields[i]) + |body| <= max
            && |b| < LIMIT32 && old(stream.Rest()) == Prefixed(b) + tail ==>
              ok && z == WithItems(d, st, i, RecoveredAll(kind, body)) && stream.Rest() == tail
    decreases d.fields[i].kind, 5
  {
    var sub;
    ok, sub := stream.MakeStringSubstream(Concat(Payloads(d.fields[i].kind, body)), tail);
    if !ok {
      return false, st;
    }
    ok, z := DecodePackedItems(sub, d, i, max, st, body);
    if sub.left != 0 {
      return false, z;
    }
    var closed := stream.CloseStringSubstream(sub);
    ok := ok && closed;
  }

  /** As many items as the substream and the room for them hold. */
  method DecodePackedItems(sub: IStream, d: Desc, i: nat, max: nat, st: State, ghost body: seq<Datum>) returns (ok: bool, z: State)
    requires sub.Valid() && DescOk(d) && StateOk(d, st) && i < |d.fields| && Packable(d.fields[i].kind)
    requires d.fields[i].rule == Repeated(max) || d.fields[i].rule == FixedCount(max)
    requires st.msg.slots[i].Many?
    modifies sub
    ensures sub.Moved(ok) && StateOk(d, z)
    ensures var kind := d.fields[i].kind;
            AllGood(kind, body) && ArraySize(st, i, d.fields[i]) + |body| <= max && old(sub.Rest()) == Concat(Payloads(kind, body)) ==>
              ok && z == WithItems(d, st, i, RecoveredAll(kind, body)) && sub.left == 0
    decreases d.fields[i].kind, 4
  {
    var f := d.fields[i];
    assert FieldOk(f, d.unions) && TypedSlot(f, st.msg.slots[i]);
    var size := ArraySize(st, i, f);
    var got;
    ok, got := DecodeItems(sub, f, if size < max then max - size else 0, body);
    ItemsAreTyped(d, st, i, got);
    z := WithItems(d, st, i, got);
  }

  /** One more item of an array. */
  method DecodeItem(stream: IStream, d: Desc, i: nat, max: nat, st: State, ghost wireType: nat, ghost r: Rec, ghost tail: Bytes)
    returns (ok: bool, z: State)
    requires stream.Valid() && DescOk(d) && StateOk(d, st) && i < |d.fields|
    requires d.fields[i].rule == Repeated(max) || d.fields[i].rule == FixedCount(max)
    modifies stream
    ensures stream.Moved(ok) && StateOk(d, z)
    ensures !r.packed && Coming(d, st, i, wireType, r, old(stream.Rest()), tail) ==>
              ok && z == Apply(d, st, r) && stream.Rest() == tail
    decreases d.fields[i].kind, 3
  {
    ghost var good := !r.packed && Coming(d, st, i, wireType, r, stream.Rest(), tail);
    var f := d.fields[i];
    assert FieldOk(f, d.unions) && TypedSlot(f, st.msg.slots[i]);
    if ArraySize(st, i, f) >= max {
      return false, st;
    }
    ZeroIsTyped(f.kind);
    if good {
      OneInBody(d, r);
      GoodAt(f.kind, r.body, 0);
      ItemsApply(d, st, r);
    }
    var v;
    ok, v := DecodeValue(stream, f, ZeroOf(f.kind), if good then r.body[0] else ZeroOf(f.kind), tail);
    ItemsAreTyped(d, st, i, [v]);
    z := WithItems(d, st, i, [v]);
  }

  lemma OneInBody(d: Desc, r: Rec)
    requires r.i < |d.fields| && |r.body| == 1 && !r.packed
    ensures var kind := d.fields[r.i].kind;
            RecPayload(d, r) == Payload(kind, r.body[0]) && RecoveredAll(kind, r.body) == [RecoveredDatum(kind, r.body[0])]
  {
    var kind := d.fields[r.i].kind;
    assert Payloads(kind, r.body) == [Payload(kind, r.body[0])];
    ConcatOne(Payload(kind, r.body[0]));
  }

  /** What the struct holds where a value is about to be read. A union that holds another
      field starts over. */
  function StartOf(d: Desc, m: Msg, i: nat): Datum
    requires i < |d.fields| && i < |m.slots|
  {
    var f := d.fields[i];
    match (f.rule, m.slots[i])
    case (Oneof(u), _) =>
      if u < |m.unions| && m.unions[u].Some? && m.unions[u].value.which == f.tag then m.unions[u].value.v else ZeroOf(f.kind)
    case (_, One(v)) => v
    case (_, Maybe(o)) => if o.Some? then o.value else InitValue(f)
    case _ => ZeroOf(f.kind)
  }

  /** Sets a field, its flag, and the tag of its union. */
  function WithValue(d: Desc, m: Msg, i: nat, v: Datum): Msg
    requires i < |d.fields| && i < |m.slots|
  {
    var f := d.fields[i];
    match f.rule
    case Oneof(u) => if u < |m.unions| then m.(unions := m.unions[u := Some(Choice(f.tag, v))]) else m
    case Optional => m.(slots := m.slots[i := Maybe(Some(v))])
    case _ => m.(slots := m.slots[i := One(v)])
  }

  lemma StartIsTyped(d: Desc, m: Msg, i: nat)
    requires DescOk(d) && TypedMsg(d, m) && i < |d.fields| && !d.fields[i].rule.Repeated? && !d.fields[i].rule.FixedCount?
    ensures Typed(d.fields[i].kind, StartOf(d, m, i))
  {
    var f := d.fields[i];
    assert FieldOk(f, d.unions) && TypedSlot(f, m.slots[i]);
    InitIsTyped(f, d.unions);
    if f.rule.Oneof? && m.unions[f.rule.union].Some? && m.unions[f.rule.union].value.which == f.tag {
      ChosenIsTyped(d, m, i);
    }
  }

  lemma ValueIsTyped(d: Desc, m: Msg, i: nat, v: Datum)
    requires DescOk(d) && TypedMsg(d, m) && i < |d.fields| && !d.fields[i].rule.Repeated? && !d.fields[i].rule.FixedCount?
    requires Typed(d.fields[i].kind, v)
    ensures TypedMsg(d, WithValue(d, m, i, v))
  {
    var f := d.fields[i];
    assert FieldOk(f, d.unions) && TypedSlot(f, m.slots[i]);
    match f.rule
    case Oneof(u) => ChoiceIsTyped(d, m, i, u, v);
    case Optional => SlotIsTyped(d, m, i, Maybe(Some(v)));
    case _ => SlotIsTyped(d, m, i, One(v));
  }

  /** A field of one value. */
  method DecodeSingle(stream: IStream, d: Desc, i: nat, m: Msg, ghost wireType: nat, ghost st: State, ghost r: Rec, ghost tail: Bytes)
    returns (ok: bool, z: Msg)
    requires stream.Valid() && DescOk(d) && TypedMsg(d, m) && i < |d.fields| && st.msg == m
    requires !d.fields[i].rule.Repeated? && !d.fields[i].rule.FixedCount?
    modifies stream
    ensures stream.Moved(ok) && TypedMsg(d, z)
    ensures Coming(d, st, i, wireType, r, old(stream.Rest()), tail) ==>
              ok && z == Apply(d, st, r).msg && stream.Rest() == tail
    decreases d.fields[i].kind, 3
  {
    ghost var good := Coming(d, st, i, wireType, r, stream.Rest(), tail);
    var f := d.fields[i];
    assert FieldOk(f, d.unions);
    StartIsTyped(d, m, i);
    if good {
      OneInBody(d, r);
    }
    var start := StartOf(d, m, i);
    if good {
      StartsFresh(d, st, r);
      GoodAt(f.kind, r.body, 0);
    }
    var v;
    ok, v := DecodeValue(stream, f, start, if good then r.body[0] else start, tail);
    ValueIsTyped(d, m, i, v);
    z := WithValue(d, m, i, v);
    if good {
      ValueApplies(d, st, r, v);
    }
  }

  /** Where a record fits in, its value starts from default values. */
  lemma StartsFresh(d: Desc, st: State, r: Rec)
    requires DescOk(d) && Ready(d, st, r) && !d.fields[r.i].rule.Repeated? && !d.fields[r.i].rule.FixedCount?
    ensures Starts(d.fields[r.i], StartOf(d, st.msg, r.i))
  {
    var f := d.fields[r.i];
    assert FieldOk(f, d.unions);
    if f.kind.SubMessage? {
      assert InitValue(f) == ZeroOf(f.kind) == Struct(Default(f.kind.desc));
      assert DefaultSlot(f) == if f.rule.Optional? then Maybe(None) else if f.rule.Oneof? then Shared else One(InitValue(f));
    }
  }

  lemma ValueApplies(d: Desc, st: State, r: Rec, v: Datum)
    requires DescOk(d) && TypedMsg(d, st.msg) && Ready(d, st, r) && RecoveredAll(d.fields[r.i].kind, r.body) == [v]
    requires !d.fields[r.i].rule.Repeated? && !d.fields[r.i].rule.FixedCount?
    ensures Apply(d, st, r).msg == WithValue(d, st.msg, r.i, v)
  {
    var f := d.fields[r.i];
    assert FieldOk(f, d.unions);
    assert st.msg.slots[r.i := st.msg.slots[r.i]] == st.msg.slots;
  }

  /** One field behind its tag. The size of a fixed-count array is kept outside the struct;
      one such array must be complete before another begins. */
  method DecodeField(stream: IStream, d: Desc, iter: FieldIter, wireType: nat, st: State, ghost r: Rec, ghost tail: Bytes)
    returns (ok: bool, z: State)
    requires stream.Valid() && DescOk(d) && StateOk(d, st) && iter.Valid() && iter.fields == d.fields && d.fields != []
    modifies stream
    ensures stream.Moved(ok) && StateOk(d, z)
    ensures Coming(d, st, iter.pos, wireType, r, old(stream.Rest()), tail) ==> ok && z == Apply(d, st, r) && stream.Rest() == tail
    decreases d, 1
  {
    var i := iter.pos;
    var f := d.fields[i];
    if f.rule.Repeated? || f.rule.FixedCount? {
      if f.rule.FixedCount? && st.fixedField.Some? && st.fixedField != Some(i)
         && st.fixedSize != d.fields[st.fixedField.value].rule.max {
        return false, st;
      }
      ok, z := DecodeArray(stream, d, i, f.rule.max, wireType, st, r, tail);
      return;
    }
    var seen := st.seen;
    if f.rule.Required? && iter.requiredIndex < MAX_REQUIRED_FIELDS {
      seen := seen + {iter.requiredIndex};
    }
    var m;
    ok, m := DecodeSingle(stream, d, i, st.msg, wireType, st, r, tail);
    z := st.(msg := m, seen := seen);
  }

  method DecodeArray(stream: IStream, d: Desc, i: nat, max: nat, wireType: nat, st: State, ghost r: Rec, ghost tail: Bytes)
    returns (ok: bool, z: State)
    requires stream.Valid() && DescOk(d) && StateOk(d, st) && i < |d.fields|
    requires d.fields[i].rule == Repeated(max) || d.fields[i].rule == FixedCount(max)
    modifies stream
    ensures stream.Moved(ok) && StateOk(d, z)
    ensures Coming(d, st, i, wireType, r, old(stream.Rest()), tail) ==> ok && z == Apply(d, st, r) && stream.Rest() == tail
    decreases d, 0
  {
    if wireType == WT_STRING && Packable(d.fields[i].kind) {
      ok, z := DecodePacked(stream, d, i, max, st, r, tail);
    } else {
      ok, z := DecodeItem(stream, d, i, max, st, wireType, r, tail);
    }
  }

  // --------------------------------------------------------------- messages

  /** The records that lie ahead take the decoder to `z`. */
  ghost predicate ComingAll(d: Desc, st: State, recs: seq<Rec>, z: State, rest: Bytes) {
    Goes(d, st, recs, z) && (forall k :: 0 <= k < |recs| ==> GoodRec(d, recs[k])) && rest == Concat(RecsBytes(d, recs))
  }

  /** The first of the records: its tag, its payload, and the records behind it. */
  lemma FirstRecord(d: Desc, st: State, recs: seq<Rec>, z: State, rest: Bytes)
    requires ComingAll(d, st, recs, z, rest) && recs != []
    ensures var r, tail := recs[0], Concat(RecsBytes(d, recs[1..]));
            r.i < |d.fields| && rest == Varint(RecTag(d.fields[r.i], r)) + (RecPayload(d, r) + tail)
            && Ready(d, st, r) && ComingAll(d, Apply(d, st, r), recs[1..], z, tail)
  {
    FirstBytes(d, recs);
  }

  lemma FirstBytes(d: Desc, recs: seq<Rec>)
    requires recs != [] && recs[0].i < |d.fields|
    ensures var r, tail := recs[0], Concat(RecsBytes(d, recs[1..]));
            Concat(RecsBytes(d, recs)) == Varint(RecTag(d.fields[r.i], r)) + (RecPayload(d, r) + tail)
  {
    var r, tail := recs[0], Concat(RecsBytes(d, recs[1..]));
    var parts := RecsBytes(d, recs);
    assert parts[0] == RecBytes(d, r) && parts[1..] == RecsBytes(d, recs[1..]);
    ConcatHead(parts);
    Associative(Varint(RecTag(d.fields[r.i], r)), RecPayload(d, r), tail);
  }

  /** What the next tag is, if records are coming. */
  lemma Announced(d: Desc, st: State, recs: seq<Rec>, z: State, rest: Bytes)
    returns (r: Rec, tail: Bytes, tag: nat, wireType: nat)
    requires DescOk(d) && (ComingAll(d, st, recs, z, rest) && recs == [] ==> rest != [])
    ensures ComingAll(d, st, recs, z, rest) ==>
              recs != [] && r == recs[0] && r.i < |d.fields| && d.fields[r.i].tag == tag && 0 < tag < LIMIT_TAG && wireType < 8
              && rest == Varint(tag * 8 + wireType) + (RecPayload(d, r) + tail)
              && Coming(d, st, r.i, wireType, r, RecPayload(d, r) + tail, tail)
              && ComingAll(d, Apply(d, st, r), recs[1..], z, tail)
  {
    r, tail, tag, wireType := Rec(0, [], false), [], 0, 0;
    if ComingAll(d, st, recs, z, rest) {
      NoRecords(d);
      FirstRecord(d, st, recs, z, rest);
      r, tail := recs[0], Concat(RecsBytes(d, recs[1..]));
      tag, wireType := d.fields[r.i].tag, if r.packed then WT_STRING else WireType(d.fields[r.i].kind);
      FirstIsComing(d, st, recs, z, rest);
    }
  }

  lemma NoRecords(d: Desc)
    ensures Concat(RecsBytes(d, [])) == []
  {
  }

  lemma FirstIsComing(d: Desc, st: State, recs: seq<Rec>, z: State, rest: Bytes)
    requires DescOk(d) && ComingAll(d, st, recs, z, rest) && recs != [] && recs[0].i < |d.fields| && Ready(d, st, recs[0])
    ensures var r, tail, f := recs[0], Concat(RecsBytes(d, recs[1..])), d.fields[recs[0].i];
            var wireType := if r.packed then WT_STRING else WireType(f.kind);
            0 < f.tag < LIMIT_TAG && wireType < 8 && RecTag(f, r) == f.tag * 8 + wireType
            && Coming(d, st, r.i, wireType, r, RecPayload(d, r) + tail, tail)
  {
    assert FieldOk(d.fields[recs[0].i], d.unions);
  }

  /** Reads a tag and the field that it announces; unknown fields are skipped. */
  method DecodeNext(stream: IStream, d: Desc, iter: FieldIter, st: State, ghost recs: seq<Rec>, ghost z: State)
    returns (ok: bool, stop: bool, st': State)
    requires stream.Valid() && stream.left > 0 && DescOk(d) && StateOk(d, st) && iter.Valid() && iter.fields == d.fields
    modifies stream, iter
    ensures stream.Moved(ok) && StateOk(d, st') && iter.Valid() && (ok && !stop ==> stream.left < old(stream.left))
    ensures ComingAll(d, st, recs, z, old(stream.Rest())) ==>
              ok && !stop && recs != [] && ComingAll(d, st', recs[1..], z, stream.Rest())
    decreases d, 2
  {
    ghost var good := ComingAll(d, st, recs, z, stream.Rest());
    ghost var r, tail, tag0, wire0 := Announced(d, st, recs, z, stream.Rest());
    var eof, wireType, tag;
    ok, eof, wireType, tag := stream.DecodeTag(tag0, wire0, if good then RecPayload(d, r) + tail else []);
    if !ok {
      return eof, eof, st;
    }
    stop, st' := false, st;
    var found := iter.Find(tag);
    if !found {
      ok := stream.SkipField(wireType);
    } else if d.fields == [] {
      // The terminator is taken for a field; there is no struct to put it in.
      var on;
      ok, on := DecodeBool(stream, false, []);
    } else {
      if good {
        TagsDiffer(d, iter.pos, r.i);
      }
      ok, st' := DecodeField(stream, d, iter, wireType, st, r, tail);
    }
  }

  /** The required fields, as far as they are counted, have all been seen. */
  method CheckRequired(d: Desc, iter: FieldIter, seen: set<nat>) returns (ok: bool)
    requires iter.Valid() && iter.fields == d.fields
    modifies iter
    ensures ok == SeenTo(d, seen, |d.fields|)
  {
    var count := iter.RequiredCount();
    if count > MAX_REQUIRED_FIELDS {
      count := MAX_REQUIRED_FIELDS;
    }
    for k := 0 to count
      invariant forall j: nat :: j < k ==> j in seen
    {
      if k !in seen {
        return false;
      }
    }
    ok := true;
  }

  /** Reads fields to the end of the stream. Whatever lies there, the result has the types
      of its fields; and the encoding of a message gives the message back. */
  method DecodeNoInit(stream: IStream, d: Desc, start: Msg, ghost m: Msg) returns (ok: bool, r: Msg)
    requires stream.Valid() && DescOk(d) && TypedMsg(d, start)
    modifies stream
    ensures stream.Moved(ok) && TypedMsg(d, r)
    ensures GoodMsg(d, m) && old(stream.Rest()) == Encoding(d, m) && start == Default(d) ==>
              ok && r == Recovered(d, m) && stream.Rest() == []
    decreases d, 4
  {
    ghost var good := GoodMsg(d, m) && stream.Rest() == Encoding(d, m) && start == Default(d);
    var st := State(start, None, 0, {});
    ghost var z: State, recs: seq<Rec> := st, [];
    if good {
      z := MessageGoes(d, m, 1);
      recs := Records(d, m);
      RecordsAreGood(d, m);
    }
    var iter := new FieldIter(d.fields);
    ok, st := DecodeAll(stream, d, iter, st, recs, z);
    r := st.msg;
    if !ok {
      return;
    }
    if st.fixedField.Some? && st.fixedSize != d.fields[st.fixedField.value].rule.max {
      return false, r;
    }
    ok := CheckRequired(d, iter, st.seen);
  }

  /** The records of a message within limits can all be read back. */
  lemma RecordsAreGood(d: Desc, m: Msg)
    requires DescOk(d) && GoodMsg(d, m)
    ensures forall k :: 0 <= k < |Records(d, m)| ==> GoodRec(d, Records(d, m)[k])
  {
    var recs, parts := Records(d, m), RecsBytes(d, Records(d, m));
    forall k | 0 <= k < |recs|
      ensures GoodRec(d, recs[k])
    {
      var i, j := WhichField(FieldGroups(d, m), k);
      FieldRecordIsGood(d, m, i, j);
      ConcatPrefix(parts, k);
      assert parts[k] == RecBytes(d, recs[k]);
      RecIsGood(d, recs[k]);
    }
  }

  lemma {:induction false} WhichField(groups: seq<seq<Rec>>, k: nat) returns (i: nat, j: nat)
    requires k < |Flatten(groups)|
    ensures i < |groups| && j < |groups[i]| && Flatten(groups)[k] == groups[i][j]
  {
    var n := |groups| - 1;
    if k < |Flatten(groups[..n])| {
      i, j := WhichField(groups[..n], k);
    } else {
      i, j := n, k - |Flatten(groups[..n])|;
    }
  }

  /** A record's values have the field's type and fit their storage. */
  lemma FieldRecordIsGood(d: Desc, m: Msg, i: nat, j: nat)
    requires DescOk(d) && TypedMsg(d, m) && WithinMsg(d, m, 1) && i < |d.fields| && j < |FieldRecords(d, m, i)|
    ensures var r := FieldRecords(d, m, i)[j];
            r.i == i && forall k :: 0 <= k < |r.body| ==> Typed(d.fields[i].kind, r.body[k]) && Within(d.fields[i].kind, r.body[k], 1)
  {
    var f, recs := d.fields[i], FieldRecords(d, m, i);
    assert FieldOk(f, d.unions) && TypedSlot(f, m.slots[i]);
    if f.rule.Oneof? {
      ChosenIsTyped(d, m, i);
    }
    assert recs[j].i == i;
    assert WithinField(d, m, i, 1);
    assert RecsWithin(d, recs, 1);
    assert AllWithin(d.fields[recs[j].i].kind, recs[j].body, 1);
  }

  lemma RecIsGood(d: Desc, r: Rec)
    requires r.i < |d.fields| && |RecBytes(d, r)| < LIMIT32
    requires forall k :: 0 <= k < |r.body| ==> Typed(d.fields[r.i].kind, r.body[k]) && Within(d.fields[r.i].kind, r.body[k], 1)
    ensures GoodRec(d, r)
  {
    var kind := d.fields[r.i].kind;
    var parts := Payloads(kind, r.body);
    forall k | 0 <= k < |r.body|
      ensures Good(kind, r.body[k])
    {
      ConcatPrefix(parts, k);
      assert parts[k] == Payload(kind, r.body[k]);
    }
  }

  method DecodeAll(stream: IStream, d: Desc, iter: FieldIter, st0: State, ghost recs0: seq<Rec>, ghost z: State)
    returns (ok: bool, st: State)
    requires stream.Valid() && DescOk(d) && StateOk(d, st0) && iter.Valid() && iter.fields == d.fields
    modifies stream, iter
    ensures stream.Moved(ok) && StateOk(d, st) && iter.Valid()
    ensures ComingAll(d, st0, recs0, z, old(stream.Rest())) ==> ok && st == z && stream.Rest() == []
    decreases d, 3
  {
    ghost var good, recs := ComingAll(d, st0, recs0, z, stream.Rest()), recs0;
    var stop := false;
    ok, st := true, st0;
    while stream.left > 0 && ok && !stop
      invariant stream.Moved(ok) && StateOk(d, st) && iter.Valid()
      invariant good ==> ok && !stop && ComingAll(d, st, recs, z, stream.Rest())
      decreases stream.left, ok, !stop
    {
      ok, stop, st := DecodeNext(stream, d, iter, st, recs, z);
      recs := if good then recs[1..] else recs;
    }
    if good {
      if recs != [] {
        FirstRecord(d, st, recs, z, stream.Rest());
      }
    }
  }

  // ------------------------------------------------------------- round trip

  /** Encode into a buffer, then decode. What fits comes back, with default values in place
      of what was left out: unchanged exactly when those defaults are zero. */
  method RoundTrip(d: Desc, m: Msg, room: nat) returns (fits: bool, ok: bool, copy: Msg)
    requires DescOk(d) && TypedMsg(d, m) && WithinMsg(d, m, 1) && |Encoding(d, m)| < LIMIT32
    ensures fits == (|Encoding(d, m)| <= room)
    ensures fits ==> ok && copy == Recovered(d, m) && (copy == m <==> ZeroDefaultsIn(d, m))
  {
    WithinLess(d, m);
    RecoveredIsSame(d, m);
    var counted, size, bytes;
    counted, size, fits, bytes := PbEncode.SizeThenEncode(d, m, room);
    var stream := new IStream(bytes);
    ok, copy := Decode(stream, d, m);
  }

  /** A field without a flag whose default is seven: zero is left out, and comes back as
      seven. */
  lemma DefaultComesBack()
    ensures var d, m := Desc([Field(1, VarInt(4), Singular, Some(Num(7)))], 0), Msg([One(Num(0))], []);
            DescOk(d) && TypedMsg(d, m) && WithinMsg(d, m, 1) && Encoding(d, m) == []
            && Recovered(d, m) == Msg([One(Num(7))], []) && !ZeroDefaultsIn(d, m)
  {
    var f := Field(1, VarInt(4), Singular, Some(Num(7)));
    var d, m := Desc([f], 0), Msg([One(Num(0))], []);
    assert FieldOk(f, 0) && TypedSlot(f, m.slots[0]);
    assert ZeroValue(f.kind, Num(0)) && !ZeroValue(f.kind, Num(7));
    assert FieldGroups(d, m) == [[]];
    assert Flatten([[]]) == Flatten<Rec>([[]][..0]) + [];
    assert Records(d, m) == [];
    assert RecsBytes(d, []) == [];
    assert !ZeroDefaultsAt(d, m, 0);
    assert Recovered(d, m).slots == [DefaultSlot(f)];
  }
}
