/** The record log: fragmenting writer, reader, and what a torn tail loses
    (db/log_format.h, db/log_writer.cc, db/log_reader.cc, util/crc32c.h). */
module Log {
  import opened Coding
  import opened Entries

  const BLOCK_SIZE := 32768
  const HEADER_SIZE := 7

  /** The block of a file position, and the position within it. */
  function BlockOf(n: nat): nat {
    n / 32768
  }

  function OffsetOf(n: nat): (r: nat)
    ensures r < BLOCK_SIZE && n == BlockOf(n) * 32768 + r
  {
    n % 32768
  }

  function BlockEnd(n: nat): (r: nat)
    ensures r == n - OffsetOf(n) + BLOCK_SIZE
  {
    (n / 32768 + 1) * 32768
  }

  const ZERO_TYPE: Byte := 0
  const FULL_TYPE: Byte := 1
  const FIRST_TYPE: Byte := 2
  const MIDDLE_TYPE: Byte := 3
  const LAST_TYPE: Byte := 4

  // ------------------------------------------------------------- checksum

  /** One step of the checksum; any function will do. */
  type Step = (Word, Byte) -> Word

  function Extend(step: Step, crc: Word, data: Bytes): Word
    decreases |data|
  {
    if data == [] then crc else Extend(step, step(crc, data[0]), data[1..])
  }

  function Crc(step: Step, data: Bytes): Word {
    Extend(step, 0, data)
  }

  /** A checksum may be extended piece by piece. */
  lemma {:induction false} ExtendConcat(step: Step, crc: Word, a: Bytes, b: Bytes)
    ensures Extend(step, crc, a + b) == Extend(step, Extend(step, crc, a), b)
    decreases |a|
  {
    if a == [] {
      assert a + b == b;
    } else {
      assert (a + b)[1..] == a[1..] + b;
      ExtendConcat(step, step(crc, a[0]), a[1..], b);
    }
  }

  const MASK_DELTA: nat := 0xa282ead8

  /** Rotate right by 15 bits and add a constant. */
  function Mask(crc: Word): Word {
    (crc / 0x8000 + crc % 0x8000 * 0x2_0000 + MASK_DELTA) % LIMIT32
  }

  function Unmask(masked: Word): Word {
    var rot := (masked + (LIMIT32 - MASK_DELTA)) % LIMIT32;
    rot / 0x2_0000 + rot % 0x2_0000 * 0x8000
  }

  lemma UnmaskMask(crc: Word)
    ensures Unmask(Mask(crc)) == crc
  {
    var high, low := crc / 0x8000, crc % 0x8000;
    var rot := high + low * 0x2_0000;
    assert rot < LIMIT32;
    var sum := rot + MASK_DELTA;
    assert Mask(crc) == if sum < LIMIT32 then sum else sum - LIMIT32;
    assert (Mask(crc) + (LIMIT32 - MASK_DELTA)) % LIMIT32 == rot;
    assert rot / 0x2_0000 == low && rot % 0x2_0000 == high;
  }

  /** How a checksum is computed and kept in a header. */
  datatype Checksum = Checksum(step: Step, store: Word -> Bytes, load: Bytes -> Word) {
    ghost predicate Ok() {
      forall crc :: |store(crc)| == 4 && load(store(crc)) == crc
    }
  }

  /** Masked, in four little-endian bytes. */
  function Masked(step: Step): (sum: Checksum)
    ensures sum.Ok()
  {
    var sum := Checksum(step, (crc: Word) => Fixed32(Mask(crc)),
                        (b: Bytes) => if |b| == 4 then Unmask(DecodeFixed32(b, 0)) else 0);
    assert sum.Ok() by {
      forall crc
        ensures |sum.store(crc)| == 4 && sum.load(sum.store(crc)) == crc
      {
        assert Fixed32(Mask(crc))[0..4] == Fixed32(Mask(crc));
        Fixed32RoundTrip(Fixed32(Mask(crc)), 0, Mask(crc));
        UnmaskMask(crc);
      }
    }
    sum
  }

  type Sum = c: Checksum | c.Ok() witness Masked((crc: Word, b: Byte) => crc)

  // ------------------------------------------------------- physical records

  /** A header of checksum, length and type, and then the fragment. */
  function Physical(sum: Sum, t: Byte, data: Bytes): (r: Bytes)
    requires |data| <= 0xffff
    ensures |r| == HEADER_SIZE + |data|
  {
    sum.store(Crc(sum.step, [t] + data)) + [|data| % 0x100, |data| / 0x100, t] + data
  }

  function Zeros(n: nat): (r: Bytes)
    ensures |r| == n
  {
    seq(n, i => 0)
  }

  /** The fill at the end of a block that has no room for a header. */
  function Pad(off: nat): (r: Bytes)
    requires off <= BLOCK_SIZE
  {
    if BLOCK_SIZE - off < HEADER_SIZE then Zeros(BLOCK_SIZE - off) else []
  }

  /** Where in its block the next header goes. */
  function Start(off: nat): (r: nat)
    requires off <= BLOCK_SIZE
    ensures r + HEADER_SIZE <= BLOCK_SIZE
  {
    if BLOCK_SIZE - off < HEADER_SIZE then 0 else off
  }

  function FragmentLength(off: nat, left: nat): (r: nat)
    requires off <= BLOCK_SIZE
    ensures r <= left && Start(off) + HEADER_SIZE + r <= BLOCK_SIZE
    ensures left > 0 && r == 0 ==> off < BLOCK_SIZE && Start(off) + HEADER_SIZE == BLOCK_SIZE
  {
    var avail := BLOCK_SIZE - Start(off) - HEADER_SIZE;
    if left < avail then left else avail
  }

  function FragmentType(begin: bool, end: bool): Byte {
    if begin && end then FULL_TYPE
    else if begin then FIRST_TYPE
    else if end then LAST_TYPE
    else MIDDLE_TYPE
  }

  /** The bytes that the rest of a record takes up from offset `off` of a block. */
  function Fragments(sum: Sum, off: nat, data: Bytes, begin: bool): Bytes
    requires off <= BLOCK_SIZE
    decreases |data|, BLOCK_SIZE - off
  {
    var n := FragmentLength(off, |data|);
    var first := Pad(off) + Physical(sum, FragmentType(begin, n == |data|), data[..n]);
    if n == |data| then first
    else first + Fragments(sum, Start(off) + HEADER_SIZE + n, data[n..], false)
  }

  /** A log file that holds `records`; record `k` takes up the bytes from `ends[k]` to
      `ends[k + 1]`. */
  ghost predicate Layout(sum: Sum, records: seq<Bytes>, full: Bytes, ends: seq<nat>) {
    |ends| == |records| + 1 && ends[0] == 0 && ends[|records|] == |full|
    && (forall i, j :: 0 <= i <= j < |ends| ==> ends[i] <= ends[j])
    && forall k :: 0 <= k < |records| ==> Holds(sum, full, ends[k], ends[k + 1], records[k], true)
  }

  /** The bytes from `p` to `end` are the rest of a record. */
  ghost predicate Holds(sum: Sum, full: Bytes, p: nat, end: nat, left: Bytes, begin: bool) {
    p <= end <= |full| && full[p..end] == Fragments(sum, OffsetOf(p), left, begin)
  }

  lemma LayoutExtends(sum: Sum, records: seq<Bytes>, full: Bytes, ends: seq<nat>, record: Bytes, full': Bytes)
    requires Layout(sum, records, full, ends)
    requires full' == full + Fragments(sum, OffsetOf(|full|), record, true)
    ensures Layout(sum, records + [record], full', ends + [|full'|])
  {
    var ends', records' := ends + [|full'|], records + [record];
    forall k | 0 <= k < |records'|
      ensures Holds(sum, full', ends'[k], ends'[k + 1], records'[k], true)
    {
      if k < |records| {
        assert Holds(sum, full, ends[k], ends[k + 1], records[k], true);
        assert full'[ends[k]..ends[k + 1]] == full[ends[k]..ends[k + 1]];
      } else {
        assert full'[|full|..|full'|] == Fragments(sum, OffsetOf(|full|), record, true);
      }
    }
  }

  // ---------------------------------------------------------------- writer

  class Writer {
    const sum: Sum
    var dest: Bytes
    var blockOffset: nat
    /** Blocks of the file that end before `blockOffset` is counted. */
    ghost var blocks: nat

    ghost predicate Valid()
      reads this
    {
      blockOffset <= BLOCK_SIZE && |dest| == blocks * 32768 + blockOffset
    }

    /** Continues a file that already has contents. */
    constructor (sum: Sum, dest: Bytes)
      ensures Valid() && this.sum == sum && this.dest == dest
    {
      this.sum := sum;
      this.dest := dest;
      blockOffset := OffsetOf(|dest|);
      blocks := BlockOf(|dest|);
    }

    method AddRecord(record: Bytes)
      requires Valid()
      modifies this
      ensures Valid()
      ensures dest == old(dest) + Fragments(sum, OffsetOf(|old(dest)|), record, true)
    {
      ghost var all := Fragments(sum, blockOffset, record, true);
      OffsetInBlock(|dest|, blocks, blockOffset);
      BlockEndIsStart(sum, record, true);
      var left := record;
      var begin := true;
      var more := true;
      while more
        invariant Valid()
        invariant if more then dest + Fragments(sum, blockOffset, left, begin) == old(dest) + all
                  else dest == old(dest) + all
        decreases more, |left|, BLOCK_SIZE - blockOffset
      {
        ghost var dest0, off, left0, begin0 := dest, blockOffset, left, begin;
        var n := AddFragment(left, begin);
        left := left[n..];
        begin := false;
        more := |left| > 0;
        ghost var piece := Physical(sum, FragmentType(begin0, n == |left0|), left0[..n]);
        ghost var rest := if more then Fragments(sum, blockOffset, left, false) else [];
        FragmentsAre(sum, off, left0, begin0, n, piece, rest);
        Regroup(dest0, Pad(off), piece, rest);
      }
    }

    /** One round of the loop: fill the block if no header fits, then one fragment. */
    method AddFragment(left: Bytes, begin: bool) returns (n: nat)
      requires Valid()
      modifies this
      ensures Valid()
      ensures n == FragmentLength(old(blockOffset), |left|)
      ensures blockOffset == Start(old(blockOffset)) + HEADER_SIZE + n
      ensures dest == old(dest) + (Pad(old(blockOffset)) + Physical(sum, FragmentType(begin, n == |left|), left[..n]))
    {
      var leftover := BLOCK_SIZE - blockOffset;
      if leftover < HEADER_SIZE {
        if leftover > 0 {
          dest := dest + Zeros(leftover);
        }
        blockOffset := 0;
        blocks := blocks + 1;
      }
      assert dest == old(dest) + Pad(old(blockOffset)) && blockOffset == Start(old(blockOffset));
      var avail := BLOCK_SIZE - blockOffset - HEADER_SIZE;
      n := if |left| < avail then |left| else avail;
      var t: Byte;
      var end := |left| == n;
      if begin && end {
        t := FULL_TYPE;
      } else if begin {
        t := FIRST_TYPE;
      } else if end {
        t := LAST_TYPE;
      } else {
        t := MIDDLE_TYPE;
      }
      EmitPhysicalRecord(t, left[..n]);
    }

    method EmitPhysicalRecord(t: Byte, data: Bytes)
      requires |data| <= 0xffff && blockOffset + HEADER_SIZE + |data| <= BLOCK_SIZE
      modifies this`dest, this`blockOffset
      ensures dest == old(dest) + Physical(sum, t, data)
      ensures blockOffset == old(blockOffset) + HEADER_SIZE + |data|
    {
      var crc := Extend(sum.step, Crc(sum.step, [t]), data);
      ExtendConcat(sum.step, 0, [t], data);
      var header: Bytes := sum.store(crc) + [|data| % 0x100, |data| / 0x100, t];
      dest := dest + header;
      dest := dest + data;
      blockOffset := blockOffset + HEADER_SIZE + |data|;
    }
  }

  /** A full block and the start of the next one are written on alike. */
  lemma Regroup(a: Bytes, b: Bytes, c: Bytes, d: Bytes)
    ensures a + (b + c + d) == a + (b + c) + d
  {
  }

  lemma BlockEndIsStart(sum: Sum, record: Bytes, begin: bool)
    ensures Fragments(sum, BLOCK_SIZE, record, begin) == Fragments(sum, 0, record, begin)
  {
    assert Pad(BLOCK_SIZE) == Pad(0);
  }

  lemma OffsetInBlock(n: nat, blocks: nat, off: nat)
    requires n == blocks * 32768 + off && off <= BLOCK_SIZE
    ensures OffsetOf(n) == if off == BLOCK_SIZE then 0 else off
  {
    if off == BLOCK_SIZE {
      assert n == (blocks + 1) * 32768;
    }
  }

  // ---------------------------------------------------------------- reader

  datatype Progress = AtEnd | Whole | More

  datatype ReadResult = Record(t: Byte, data: Bytes) | Eof | BadRecord

  /** What a well-formed log holds at a position: its end, or one physical record after
      the fill of the block before it. */
  datatype Expected = End | Piece(t: Byte, data: Bytes)

  /** Position of the header that follows `p`. */
  function HeaderAt(p: nat): nat {
    p + |Pad(OffsetOf(p))|
  }

  ghost predicate Follows(sum: Sum, full: Bytes, p: nat, x: Expected) {
    match x
    case End => p == |full|
    case Piece(t, data) =>
      t != ZERO_TYPE && Start(OffsetOf(p)) + HEADER_SIZE + |data| <= BLOCK_SIZE
      && HeaderAt(p) + HEADER_SIZE + |data| <= |full|
      && full[HeaderAt(p)..HeaderAt(p) + HEADER_SIZE + |data|] == Physical(sum, t, data)
  }

  lemma BlockEnds(p: nat, f: nat)
    requires p <= f <= BlockEnd(p) && OffsetOf(f) == 0
    ensures (f == p && OffsetOf(p) == 0) || f == p + (BLOCK_SIZE - OffsetOf(p))
    ensures f - p < HEADER_SIZE ==> HeaderAt(p) == f
  {
    assert BlockOf(p) <= BlockOf(f) <= BlockOf(p) + 1;
  }

  lemma HeaderInBlock(p: nat)
    ensures OffsetOf(HeaderAt(p)) == Start(OffsetOf(p))
    ensures HeaderAt(p) == p || HeaderAt(p) == BlockEnd(p)
  {
    assert OffsetOf(p) > 0 ==> OffsetOf(BlockEnd(p)) == 0;
  }

  class Reader {
    const sum: Sum
    const file: Bytes
    var filePos: nat
    var buffer: Bytes
    var eof: bool
    /** How many times something was reported as corrupt. */
    var reports: nat

    constructor (sum: Sum, file: Bytes)
      ensures this.sum == sum && this.file == file && At(0) && reports == 0
    {
      this.sum := sum;
      this.file := file;
      filePos, buffer, eof, reports := 0, [], false, 0;
    }

    /** The buffer holds the rest of one block, from position `p` of the file. */
    ghost predicate At(p: int)
      reads this`filePos, this`buffer, this`eof
    {
      p == filePos - |buffer| && 0 <= p && filePos <= |file| && forall use: nat :: Buffered(p, use)
    }

    /** The buffer holds the rest of a block; this comes into play where it is mentioned. */
    ghost predicate Buffered(p: int, use: nat)
      requires p == filePos - |buffer| && 0 <= p && filePos <= |file|
      reads this`filePos, this`buffer, this`eof
    {
      buffer == file[p..filePos] && filePos <= BlockEnd(p)
      && (if eof then filePos == |file| else OffsetOf(filePos) == 0)
    }

    /** Fills the buffer until it can hold a header. */
    method Refill(ghost p: nat) returns (ok: bool)
      requires At(p)
      modifies this`filePos, this`buffer, this`eof
      ensures ok <==> HeaderAt(p) + HEADER_SIZE <= |file|
      ensures if ok then At(HeaderAt(p)) && |buffer| >= HEADER_SIZE else At(filePos)
      ensures old(filePos) <= filePos
    {
      ghost var q := p;
      while |buffer| < HEADER_SIZE
        invariant At(q)
        invariant old(filePos) <= filePos
        invariant q == p || (q == HeaderAt(p) && (eof || |buffer| >= HEADER_SIZE))
        decreases !eof, HEADER_SIZE - |buffer|
      {
        assert Buffered(q, 0);
        if !eof {
          BlockEnds(q, filePos);
          assert q == p;
          var end := if filePos + BLOCK_SIZE <= |file| then filePos + BLOCK_SIZE else |file|;
          buffer := file[filePos..end];
          q := filePos;
          filePos := end;
          if |buffer| < BLOCK_SIZE {
            eof := true;
          }
          assert OffsetOf(q) == 0;
        } else {
          buffer := [];
          return false;
        }
      }
      assert Buffered(q, 0);
      if !eof {
        BlockEnds(q, filePos);
      }
      HeaderInBlock(p);
      ok := true;
    }

    /** Bytes that are still to be parsed. */
    ghost function Remaining(): int
      reads this
    {
      |file| - filePos + |buffer|
    }

    /** Reads one physical record of any file. When the file is a prefix of a log `full`
        that holds `x` at the reader's position, it reads exactly what is wholly there. */
    method ReadPhysicalRecord(ghost full: Bytes, ghost p: nat, ghost x: Expected) returns (r: ReadResult)
      requires At(p)
      modifies this
      ensures At(filePos - |buffer|)
      ensures if r.Eof? then Remaining() <= old(Remaining()) else Remaining() < old(Remaining())
      ensures file <= full && Follows(sum, full, p, x) ==>
                reports == old(reports)
                && if x.Piece? && HeaderAt(p) + HEADER_SIZE + |x.data| <= |file|
                   then r == Record(x.t, x.data) && At(HeaderAt(p) + HEADER_SIZE + |x.data|)
                   else r == Eof
    {
      var ok := Refill(p);
      if !ok {
        return Eof;
      }
      HeaderInBlock(p);
      r := ParsePhysicalRecord(full, HeaderAt(p), x);
    }

    /** The piece `x` has its header at `q`. */
    ghost predicate Here(full: Bytes, q: nat, x: Expected)
    {
      match x
      case End => |full| < q + HEADER_SIZE
      case Piece(t, data) =>
        t != ZERO_TYPE && OffsetOf(q) + HEADER_SIZE + |data| <= BLOCK_SIZE
        && q + HEADER_SIZE + |data| <= |full|
        && full[q..q + HEADER_SIZE + |data|] == Physical(sum, t, data)
    }

    method ParsePhysicalRecord(ghost full: Bytes, ghost q: nat, ghost x: Expected) returns (r: ReadResult)
      requires At(q) && |buffer| >= HEADER_SIZE
      modifies this
      ensures At(filePos - |buffer|)
      ensures filePos == old(filePos)
      ensures if r.Eof? then |buffer| <= old(|buffer|) else |buffer| < old(|buffer|)
      ensures file <= full && Here(full, q, x) ==>
                reports == old(reports)
                && if x.Piece? && q + HEADER_SIZE + |x.data| <= |file|
                   then r == Record(x.t, x.data) && At(q + HEADER_SIZE + |x.data|)
                   else r == Eof
    {
      ghost var good := file <= full && Here(full, q, x);
      assert Buffered(q, 0);
      if !eof {
        BlockEnds(q, filePos);
      }
      if good {
        HeaderBytes(full, q, x);
      }
      var length := buffer[4] as int + buffer[5] as int * 0x100;
      var t := buffer[6];
      if HEADER_SIZE + length > |buffer| {
        buffer := [];
        if !eof {
          reports := reports + 1;
          return BadRecord;
        }
        return Eof;
      }
      if t == ZERO_TYPE && length == 0 {
        buffer := [];
        return BadRecord;
      }
      if good {
        PayloadBytes(full, q, x);
      }
      r := TakeRecord(t, length, q);
    }

    /** A record that lies in the buffer is taken if its checksum is right. */
    method TakeRecord(t: Byte, length: nat, ghost q: nat) returns (r: ReadResult)
      requires At(q) && HEADER_SIZE + length <= |buffer|
      modifies this
      ensures At(filePos - |buffer|) && filePos == old(filePos) && |buffer| < old(|buffer|)
      ensures Crc(sum.step, old(buffer)[6..7 + length]) == sum.load(old(buffer)[..4]) ==>
                reports == old(reports) && r == Record(t, old(buffer)[7..7 + length]) && At(q + HEADER_SIZE + length)
      ensures !r.Eof?
    {
      assert Buffered(q, 0);
      var expected := sum.load(buffer[..4]);
      var actual := Crc(sum.step, buffer[6..7 + length]);
      if actual != expected {
        buffer := [];
        reports := reports + 1;
        return BadRecord;
      }
      r := Record(t, buffer[7..7 + length]);
      buffer := buffer[7 + length..];
      AfterRecord(q, HEADER_SIZE + length);
    }

    /** The header in the buffer is that of the record that follows. */
    lemma HeaderBytes(full: Bytes, q: nat, x: Expected)
      requires At(q) && |buffer| >= HEADER_SIZE && file <= full
      requires x.End? ==> |full| < q + HEADER_SIZE
      requires x.Piece? ==> |x.data| <= 0xffff && q + HEADER_SIZE + |x.data| <= |full|
                            && full[q..q + HEADER_SIZE + |x.data|] == Physical(sum, x.t, x.data)
      ensures x.Piece? && buffer[4] as int + buffer[5] as int * 0x100 == |x.data| && buffer[6] == x.t
      ensures buffer[..4] == sum.store(Crc(sum.step, [x.t] + x.data))
    {
      assert Buffered(q, 0);
      var all := Physical(sum, x.t, x.data);
      assert forall i :: 0 <= i < HEADER_SIZE ==> buffer[i] == full[q + i] == all[i];
    }

    lemma PayloadBytes(full: Bytes, q: nat, x: Expected)
      requires At(q) && file <= full && x.Piece? && |x.data| <= 0xffff
      requires HEADER_SIZE + |x.data| <= |buffer| && q + HEADER_SIZE + |x.data| <= |full|
      requires full[q..q + HEADER_SIZE + |x.data|] == Physical(sum, x.t, x.data)
      requires buffer[..4] == sum.store(Crc(sum.step, [x.t] + x.data))
      ensures buffer[7..7 + |x.data|] == x.data
      ensures buffer[6..7 + |x.data|] == [x.t] + x.data
      ensures sum.load(buffer[..4]) == Crc(sum.step, buffer[6..7 + |x.data|])
    {
      assert Buffered(q, 0);
      var all, n := Physical(sum, x.t, x.data), HEADER_SIZE + |x.data|;
      assert forall i :: 0 <= i < n ==> buffer[i] == full[q + i] == all[i];
      assert all[6..] == [x.t] + x.data;
      assert buffer[..n] == all;
      assert buffer[6..n] == all[6..n];
    }

    lemma AfterRecord(q: nat, n: nat)
      requires q + n <= filePos <= |file| && buffer == file[q..filePos][n..]
      requires filePos <= BlockEnd(q)
      requires if eof then filePos == |file| else OffsetOf(filePos) == 0
      ensures At(q + n)
    {
      assert BlockOf(q) <= BlockOf((q + n));
      assert file[q..filePos][n..] == file[q + n..filePos];
    }

    /** Reads the next logical record of any file. When the file is a prefix of a log, the
        reader is after its first `k` records and the next one is wholly in the file, it
        yields that record; if it is not, the log ends here, and neither is an error. */
    method ReadRecord(ghost records: seq<Bytes>, ghost full: Bytes, ghost ends: seq<nat>, ghost k: nat)
      returns (record: Option<Bytes>)
      requires At(filePos - |buffer|)
      modifies this
      ensures At(filePos - |buffer|)
      ensures record.Some? ==> Remaining() < old(Remaining())
      ensures k <= |records| && Layout(sum, records, full, ends) && file <= full && old(At(ends[k])) ==>
                reports == old(reports)
                && if k < |records| && ends[k + 1] <= |file|
                   then record == Some(records[k]) && At(ends[k + 1])
                   else record == None
    {
      ghost var good := k <= |records| && Layout(sum, records, full, ends) && file <= full && At(ends[k]);
      ghost var inside := good && k < |records|;
      if inside {
        assert Holds(sum, full, ends[k], ends[k + 1], records[k], true);
      }
      record := ReadFragments(if inside then Walk(full, ends[k], ends[k + 1], records[k])
                              else Walk(full, |full|, |full|, []), inside);
    }

    /** The walk of one logical record, from its start, in a file that keeps a prefix of
        the log; or the end of the log. */
    ghost predicate Fits(w: Walk, inside: bool, begin: bool)
      reads this
    {
      file <= w.full && At(w.p) && if inside then w.Ok(sum, begin) else w.p == |w.full|
    }

    method ReadFragments(ghost start: Walk, ghost inside: bool) returns (record: Option<Bytes>)
      requires At(filePos - |buffer|)
      modifies this
      ensures At(filePos - |buffer|)
      ensures record.Some? ==> Remaining() < old(Remaining())
      ensures old(Fits(start, inside, true)) ==>
                reports == old(reports)
                && if inside && start.end <= |file| then record == Some(start.left) && At(start.end)
                   else record == None
    {
      var scratch: Bytes := [];
      var inFragmentedRecord := false;
      ghost var good := Fits(start, inside, true);
      ghost var w := start;
      var progress := More;
      while progress.More?
        invariant At(filePos - |buffer|) && Remaining() <= old(Remaining())
        invariant !progress.AtEnd? && !progress.More? ==> Remaining() < old(Remaining())
        invariant good ==> reports == old(reports)
        invariant good && progress.More? ==>
            Fits(w, inside, !inFragmentedRecord) && w.end == start.end && scratch + w.left == start.left
        invariant good && progress.Whole? ==>
            inside && start.end <= |file| && scratch == start.left && At(start.end)
        invariant good && progress.AtEnd? ==> !inside || start.end > |file|
        invariant progress.More? && !inFragmentedRecord ==> scratch == []
        decreases progress.More?, Remaining()
      {
        progress, scratch, inFragmentedRecord, w := ReadOne(scratch, inFragmentedRecord, w, inside);
      }
      record := if progress.Whole? then Some(scratch) else None;
    }

    /** One round of the loop that puts a logical record together. */
    method ReadOne(scratch: Bytes, inFragmentedRecord: bool, ghost w: Walk, ghost inside: bool)
      returns (progress: Progress, scratch': Bytes, inFragmentedRecord': bool, ghost w': Walk)
      requires At(filePos - |buffer|)
      requires !inFragmentedRecord ==> scratch == []
      modifies this
      ensures At(filePos - |buffer|)
      ensures !progress.AtEnd? ==> Remaining() < old(Remaining())
      ensures progress.AtEnd? ==> Remaining() <= old(Remaining())
      ensures progress.More? && !inFragmentedRecord' ==> scratch' == []
      ensures old(Fits(w, inside, !inFragmentedRecord)) ==>
                reports == old(reports)
                && match progress
                   case AtEnd => !inside || w.end > |file|
                   case Whole => inside && w.end <= |file| && scratch' == scratch + w.left && At(w.end)
                   case More => Fits(w', inside, !inFragmentedRecord') && w'.end == w.end
                                && scratch' + w'.left == scratch + w.left
    {
      scratch', inFragmentedRecord', w' := scratch, inFragmentedRecord, w;
      if Fits(w, inside, !inFragmentedRecord) && inside {
        w.PieceFollows(sum, !inFragmentedRecord);
      }
      var fragment := ReadFragment(w, inside, !inFragmentedRecord);
      match fragment
      case Eof =>
        progress := AtEnd;
      case BadRecord =>
        if inFragmentedRecord {
          reports := reports + 1;
          inFragmentedRecord' := false;
          scratch' := [];
        }
        progress := More;
      case Record(recordType, data) =>
        ghost var n := w.Taken();
        assert n == |w.left| ==> w.left[..n] == w.left;
        assert scratch + w.left == (scratch + w.left[..n]) + w.left[n..];
        var done;
        done, scratch', inFragmentedRecord' := Assemble(recordType, data, scratch, inFragmentedRecord, n == |w.left|);
        w' := w.Advance();
        progress := if done then Whole else More;
    }

    /** Reads the physical record that a walk through a logical record expects next. */
    method ReadFragment(ghost w: Walk, ghost inside: bool, ghost begin: bool) returns (r: ReadResult)
      requires At(filePos - |buffer|)
      modifies this
      ensures At(filePos - |buffer|)
      ensures if r.Eof? then Remaining() <= old(Remaining()) else Remaining() < old(Remaining())
      ensures old(Fits(w, inside, begin)) && inside ==>
                reports == old(reports) && Outcome(r, w.NextPiece(begin), w.Advance().p)
      ensures old(Fits(w, inside, begin)) && !inside ==> reports == old(reports) && r == Eof
    {
      ghost var x := if inside then w.NextPiece(begin) else End;
      if Fits(w, inside, begin) {
        assert filePos - |buffer| == w.p;
        if inside {
          w.PieceFollows(sum, begin);
        }
        assert Follows(sum, w.full, w.p, x);
      }
      r := ReadPhysicalRecord(w.full, filePos - |buffer|, x);
    }

    /** The piece was read if it lies in the file. */
    ghost predicate Outcome(r: ReadResult, x: Expected, end: nat)
      requires x.Piece?
      reads this
    {
      if end <= |file| then r == Record(x.t, x.data) && At(end) else r == Eof
    }

    /** The switch on the record type: what has been put together so far. */
    method Assemble(recordType: Byte, data: Bytes, scratch: Bytes, inFragmentedRecord: bool, ghost end: bool)
      returns (done: bool, scratch': Bytes, inFragmentedRecord': bool)
      requires !inFragmentedRecord ==> scratch == []
      modifies this`reports
      ensures !done && !inFragmentedRecord' ==> scratch' == []
      ensures recordType == FragmentType(!inFragmentedRecord, end) ==>
                reports == old(reports) && done == end && scratch' == scratch + data && (!end ==> inFragmentedRecord')
    {
      done, scratch', inFragmentedRecord' := false, scratch, inFragmentedRecord;
      if recordType == FULL_TYPE {
        if inFragmentedRecord && scratch != [] {
          reports := reports + 1;
        }
        done, scratch' := true, data;
      } else if recordType == FIRST_TYPE {
        if inFragmentedRecord && scratch != [] {
          reports := reports + 1;
        }
        scratch' := data;
        inFragmentedRecord' := true;
      } else if recordType == MIDDLE_TYPE {
        if !inFragmentedRecord {
          reports := reports + 1;
        } else {
          scratch' := scratch + data;
        }
      } else if recordType == LAST_TYPE {
        if !inFragmentedRecord {
          reports := reports + 1;
        } else {
          done, scratch' := true, scratch + data;
        }
      } else {
        reports := reports + 1;
        inFragmentedRecord' := false;
        scratch' := [];
      }
    }
  }

  // --------------------------------------------- walking through a record

  /** A position inside a record: `left` is what remains of it, and its bytes end at `end`. */
  datatype Walk = Walk(full: Bytes, p: nat, end: nat, left: Bytes) {
    ghost predicate Ok(sum: Sum, begin: bool) {
      Holds(sum, full, p, end, left, begin)
    }

    ghost function Taken(): (n: nat)
      ensures n <= |left|
    {
      FragmentLength(OffsetOf(p), |left|)
    }

    ghost function NextPiece(begin: bool): Expected {
      Piece(FragmentType(begin, Taken() == |left|), left[..Taken()])
    }

    ghost function Advance(): Walk {
      Walk(full, HeaderAt(p) + HEADER_SIZE + Taken(), end, left[Taken()..])
    }

    lemma PieceFollows(sum: Sum, begin: bool)
      requires Ok(sum, begin)
      ensures Follows(sum, full, p, NextPiece(begin))
      ensures if Taken() == |left| then Advance().p == end else Advance().p < end && Advance().Ok(sum, false)
    {
      var off, n, q := OffsetOf(p), Taken(), HeaderAt(p);
      var piece := Physical(sum, FragmentType(begin, n == |left|), left[..n]);
      var rest := if n == |left| then [] else Fragments(sum, Start(off) + HEADER_SIZE + n, left[n..], false);
      PieceAndRest(sum, begin, piece, rest);
      if n < |left| {
        OnwardsOk(sum, rest);
      }
    }

    lemma PieceAndRest(sum: Sum, begin: bool, piece: Bytes, rest: Bytes)
      requires Ok(sum, begin)
      requires piece == Physical(sum, FragmentType(begin, Taken() == |left|), left[..Taken()])
      requires rest == if Taken() == |left| then []
                       else Fragments(sum, Start(OffsetOf(p)) + HEADER_SIZE + Taken(), left[Taken()..], false)
      ensures HeaderAt(p) + |piece| + |rest| == end
      ensures full[HeaderAt(p)..HeaderAt(p) + |piece|] == piece
      ensures full[HeaderAt(p) + |piece|..end] == rest
    {
      FragmentsAre(sum, OffsetOf(p), left, begin, Taken(), piece, rest);
      var pad := Pad(OffsetOf(p));
      assert full[p..end] == pad + piece + rest && HeaderAt(p) == p + |pad|;
      ThreeSlices(full, p, end, pad, piece, rest);
    }

    lemma OnwardsOk(sum: Sum, rest: Bytes)
      requires Taken() < |left| && p <= end <= |full|
      requires rest == Fragments(sum, Start(OffsetOf(p)) + HEADER_SIZE + Taken(), left[Taken()..], false)
      requires Advance().p <= end && full[Advance().p..end] == rest
      ensures Advance().p < end && Advance().Ok(sum, false)
    {
      NextOffset(p, Taken());
      BlockEndIsStart(sum, left[Taken()..], false);
      FragmentsNotEmpty(sum, Start(OffsetOf(p)) + HEADER_SIZE + Taken(), left[Taken()..], false);
    }
  }

  lemma FragmentsAre(sum: Sum, off: nat, left: Bytes, begin: bool, n: nat, piece: Bytes, rest: Bytes)
    requires off <= BLOCK_SIZE && n == FragmentLength(off, |left|)
    requires piece == Physical(sum, FragmentType(begin, n == |left|), left[..n])
    requires rest == if n == |left| then [] else Fragments(sum, Start(off) + HEADER_SIZE + n, left[n..], false)
    ensures Fragments(sum, off, left, begin) == Pad(off) + piece + rest
  {
  }

  lemma ThreeSlices<T>(full: seq<T>, p: nat, end: nat, a: seq<T>, b: seq<T>, c: seq<T>)
    requires p <= end <= |full| && full[p..end] == a + b + c
    ensures p + |a| + |b| + |c| == end
    ensures full[p + |a|..p + |a| + |b|] == b
    ensures full[p + |a| + |b|..end] == c
  {
    var s := a + b + c;
    assert |s| == end - p;
    forall k | 0 <= k < |b|
      ensures full[p + |a| + k] == b[k]
    {
      assert s[|a| + k] == full[p..end][|a| + k];
    }
    forall k | 0 <= k < |c|
      ensures full[p + |a| + |b| + k] == c[k]
    {
      assert s[|a| + |b| + k] == full[p..end][|a| + |b| + k];
    }
  }

  lemma NextOffset(p: nat, n: nat)
    requires Start(OffsetOf(p)) + HEADER_SIZE + n <= BLOCK_SIZE
    ensures var off := Start(OffsetOf(p)) + HEADER_SIZE + n;
            OffsetOf(HeaderAt(p) + HEADER_SIZE + n) == if off == BLOCK_SIZE then 0 else off
  {
    HeaderInBlock(p);
    var q := HeaderAt(p);
    OffsetInBlock(q + HEADER_SIZE + n, BlockOf(q), OffsetOf(q) + HEADER_SIZE + n);
  }

  lemma FragmentsNotEmpty(sum: Sum, off: nat, data: Bytes, begin: bool)
    requires off <= BLOCK_SIZE
    ensures |Fragments(sum, off, data, begin)| > 0
  {
  }

  // -------------------------------------------------------------- torn tails

  /** The first `k` records, and no more, lie wholly within the first `n` bytes. */
  ghost predicate WhollyWithin(ends: seq<nat>, n: nat, k: nat) {
    k < |ends| && ends[k] <= n && (k + 1 < |ends| ==> ends[k + 1] > n)
  }

  /** Writes records to a new file, by a writer that is reopened wherever `reopen` says. */
  method WriteAll(sum: Sum, records: seq<Bytes>, reopen: nat -> bool) returns (file: Bytes)
    ensures exists ends :: Layout(sum, records, file, ends)
  {
    var writer := new Writer(sum, []);
    ghost var ends: seq<nat> := [0];
    for i := 0 to |records|
      invariant fresh(writer) && writer.Valid() && writer.sum == sum
      invariant Layout(sum, records[..i], writer.dest, ends)
    {
      if reopen(i) {
        writer := new Writer(sum, writer.dest);
      }
      ghost var before := writer.dest;
      writer.AddRecord(records[i]);
      assert records[..i + 1] == records[..i] + [records[i]];
      LayoutExtends(sum, records[..i], before, ends, records[i], writer.dest);
      ends := ends + [|writer.dest|];
    }
    assert records[..|records|] == records;
    file := writer.dest;
  }

  /** Reads a log file cut anywhere: exactly the records wholly before the cut come back,
      in order, and nothing is reported as corrupt. */
  method ReadAll(sum: Sum, file: Bytes, ghost records: seq<Bytes>, ghost full: Bytes, ghost ends: seq<nat>)
    returns (result: seq<Bytes>, reports: nat)
    requires Layout(sum, records, full, ends) && file <= full
    ensures exists k: nat :: WhollyWithin(ends, |file|, k) && result == records[..k]
    ensures reports == 0
  {
    var reader := new Reader(sum, file);
    result := [];
    ghost var k := 0;
    while true
      invariant fresh(reader) && reader.sum == sum && reader.file == file
      invariant k <= |records| && ends[k] <= |file| && reader.At(ends[k])
      invariant result == records[..k] && reader.reports == 0
      decreases |records| - k
    {
      var record := reader.ReadRecord(records, full, ends, k);
      if record.None? {
        break;
      }
      result := result + [record.value];
      k := k + 1;
    }
    assert WhollyWithin(ends, |file|, k);
    reports := reader.reports;
  }

  /** Write, cut at any byte, read: the whole records before the cut survive. */
  method TornTail(sum: Sum, records: seq<Bytes>, reopen: nat -> bool, cut: nat) returns (result: seq<Bytes>, reports: nat)
    ensures exists full, ends, k: nat ::
              Layout(sum, records, full, ends) && WhollyWithin(ends, cut, k) && result == records[..k]
    ensures reports == 0
  {
    var full := WriteAll(sum, records, reopen);
    ghost var ends :| Layout(sum, records, full, ends);
    var file := if cut < |full| then full[..cut] else full;
    result, reports := ReadAll(sum, file, records, full, ends);
    ghost var k: nat :| WhollyWithin(ends, |file|, k) && result == records[..k];
    assert WhollyWithin(ends, cut, k);
  }

  /** A cut behind the last record loses nothing. */
  lemma UncutIsWhole(sum: Sum, records: seq<Bytes>, full: Bytes, ends: seq<nat>, k: nat)
    requires Layout(sum, records, full, ends) && WhollyWithin(ends, |full|, k)
    ensures records[..k] == records
  {
    assert forall i :: 0 <= i < |ends| ==> ends[i] <= |full|;
  }
}
