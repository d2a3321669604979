/** The stored form of a version edit (db/version_edit.cc). */
module VersionEdits {
  import opened Entries
  import opened Coding

  /** What the manifest says about a table file; keys are encoded internal keys. */
  datatype Meta = Meta(number: nat, size: nat, smallest: Bytes, largest: Bytes)

  /** The value of an edit: each number and the name may be there or not. */
  datatype Edit = Edit(comparator: Option<Bytes>, logNumber: Option<nat>, prevLogNumber: Option<nat>,
                       nextFile: Option<nat>, lastSequence: Option<nat>, compactPointers: seq<(nat, Bytes)>,
                       deleted: set<(nat, nat)>, added: seq<(nat, Meta)>)

  const EMPTY := Edit(None, None, None, None, None, [], {}, [])

  /** One tagged field of the stored form. */
  datatype Field =
    | ComparatorName(name: Bytes)
    | LogNumber(n: nat)
    | PrevLogNumber(n: nat)
    | NextFile(n: nat)
    | LastSequence(n: nat)
    | CompactPointer(level: nat, key: Bytes)
    | DeletedFile(level: nat, n: nat)
    | NewFile(level: nat, meta: Meta)

  function TagOf(f: Field): nat {
    match f
    case ComparatorName(_) => 1
    case LogNumber(_) => 2
    case NextFile(_) => 3
    case LastSequence(_) => 4
    case CompactPointer(_, _) => 5
    case DeletedFile(_, _) => 6
    case NewFile(_, _) => 7
    case PrevLogNumber(_) => 9
  }

  function Payload(f: Field): Bytes {
    match f
    case ComparatorName(name) => Prefixed(name)
    case CompactPointer(level, key) => Varint(level) + Prefixed(key)
    case DeletedFile(level, n) => Varint(level) + Varint(n)
    case NewFile(level, m) =>
      Varint(level) + (Varint(m.number) + (Varint(m.size) + (Prefixed(m.smallest) + Prefixed(m.largest))))
    case _ => Varint(f.n)
  }

  /** Numbers fit 64 bits, lengths 32 bits, and levels exist. */
  predicate FieldOk(f: Field) {
    match f
    case ComparatorName(name) => |name| < LIMIT32
    case CompactPointer(level, key) => level < NUM_LEVELS && |key| < LIMIT32
    case DeletedFile(level, n) => level < NUM_LEVELS && n < LIMIT64
    case NewFile(level, m) =>
      level < NUM_LEVELS && m.number < LIMIT64 && m.size < LIMIT64 && |m.smallest| < LIMIT32 && |m.largest| < LIMIT32
    case _ => f.n < LIMIT64
  }

  function FieldBytes(f: Field): Bytes {
    Varint(TagOf(f)) + Payload(f)
  }

  function Encoding(fields: seq<Field>): Bytes {
    if fields == [] then [] else FieldBytes(fields[0]) + Encoding(fields[1..])
  }

  lemma {:induction false} EncodingGrows(fields: seq<Field>, f: Field)
    ensures Encoding(fields + [f]) == Encoding(fields) + FieldBytes(f)
  {
    if fields == [] {
      assert [f][1..] == [];
    } else {
      EncodingGrows(fields[1..], f);
      assert (fields + [f])[1..] == fields[1..] + [f];
      Associative(FieldBytes(fields[0]), Encoding(fields[1..]), FieldBytes(f));
    }
  }

  lemma Associative(a: Bytes, b: Bytes, c: Bytes)
    ensures a + (b + c) == a + b + c
  {
  }

  /** What reading one more field makes of an edit. */
  function With(e: Edit, f: Field): Edit {
    match f
    case ComparatorName(name) => e.(comparator := Some(name))
    case LogNumber(n) => e.(logNumber := Some(n))
    case PrevLogNumber(n) => e.(prevLogNumber := Some(n))
    case NextFile(n) => e.(nextFile := Some(n))
    case LastSequence(n) => e.(lastSequence := Some(n))
    case CompactPointer(level, key) => e.(compactPointers := e.compactPointers + [(level, key)])
    case DeletedFile(level, n) => e.(deleted := e.deleted + {(level, n)})
    case NewFile(level, m) => e.(added := e.added + [(level, m)])
  }

  function WithAll(e: Edit, fields: seq<Field>): Edit {
    if fields == [] then e else With(WithAll(e, fields[..|fields| - 1]), fields[|fields| - 1])
  }

  lemma WithOneMore(e: Edit, fields: seq<Field>, f: Field)
    ensures WithAll(e, fields + [f]) == With(WithAll(e, fields), f)
  {
    assert (fields + [f])[..|fields|] == fields;
  }

  /** An edit whose parts fit their stored form. */
  ghost predicate EditOk(e: Edit) {
    (e.comparator.Some? ==> |e.comparator.value| < LIMIT32)
    && (e.logNumber.Some? ==> e.logNumber.value < LIMIT64)
    && (e.prevLogNumber.Some? ==> e.prevLogNumber.value < LIMIT64)
    && (e.nextFile.Some? ==> e.nextFile.value < LIMIT64)
    && (e.lastSequence.Some? ==> e.lastSequence.value < LIMIT64)
    && (forall i :: 0 <= i < |e.compactPointers| ==> FieldOk(CompactPointer(e.compactPointers[i].0, e.compactPointers[i].1)))
    && (forall d :: d in e.deleted ==> FieldOk(DeletedFile(d.0, d.1)))
    && forall i :: 0 <= i < |e.added| ==> FieldOk(NewFile(e.added[i].0, e.added[i].1))
  }

  /** The stored form of an edit; deleted files may come in any order. */
  ghost predicate Stores(e: Edit, data: Bytes) {
    exists fields :: IsStored(e, fields, data)
  }

  ghost predicate IsStored(e: Edit, fields: seq<Field>, data: Bytes) {
    data == Encoding(fields) && WithAll(EMPTY, fields) == e && forall i :: 0 <= i < |fields| ==> FieldOk(fields[i])
  }

  class VersionEdit {
    var comparator: Option<Bytes>
    var logNumber: Option<nat>
    var prevLogNumber: Option<nat>
    var nextFile: Option<nat>
    var lastSequence: Option<nat>
    var compactPointers: seq<(nat, Bytes)>
    var deleted: set<(nat, nat)>
    var added: seq<(nat, Meta)>

    function Value(): Edit
      reads this
    {
      Edit(comparator, logNumber, prevLogNumber, nextFile, lastSequence, compactPointers, deleted, added)
    }

    constructor ()
      ensures Value() == EMPTY
    {
      comparator, logNumber, prevLogNumber, nextFile, lastSequence := None, None, None, None, None;
      compactPointers, deleted, added := [], {}, [];
    }

    /** Compaction pointers are not cleared. */
    method Clear()
      modifies this
      ensures Value() == EMPTY.(compactPointers := old(compactPointers))
    {
      comparator, logNumber, prevLogNumber, nextFile, lastSequence := None, None, None, None, None;
      deleted, added := {}, [];
    }

    /** Appends one field to the stored form. */
    static method Put(f: Field, dst: Bytes, ghost fields: seq<Field>, ghost e: Edit) returns (dst': Bytes, ghost fields': seq<Field>)
      requires FieldOk(f) && IsStored(e, fields, dst)
      ensures fields' == fields + [f] && IsStored(With(e, f), fields', dst')
    {
      var tag := EncodeVarint32(TagOf(f));
      var payload := EncodePayload(f);
      dst' := dst + (tag + payload);
      fields' := fields + [f];
      StoredGrows(e, fields, dst, f);
    }

    static lemma StoredGrows(e: Edit, fields: seq<Field>, dst: Bytes, f: Field)
      requires FieldOk(f) && IsStored(e, fields, dst)
      ensures IsStored(With(e, f), fields + [f], dst + FieldBytes(f))
    {
      EncodingGrows(fields, f);
      WithOneMore(EMPTY, fields, f);
    }

    static method EncodePayload(f: Field) returns (b: Bytes)
      requires FieldOk(f)
      ensures b == Payload(f)
    {
      match f {
        case ComparatorName(name) =>
          b := PutLengthPrefixedSlice(name);
        case CompactPointer(level, key) =>
          var l := EncodeVarint32(level);
          var s := PutLengthPrefixedSlice(key);
          b := l + s;
        case DeletedFile(level, n) =>
          var l := EncodeVarint32(level);
          var v := EncodeVarint64(n);
          b := l + v;
        case NewFile(level, m) =>
          b := EncodeNewFile(level, m);
        case _ =>
          b := EncodeVarint64(f.n);
      }
    }

    static method EncodeNewFile(level: nat, m: Meta) returns (b: Bytes)
      requires FieldOk(NewFile(level, m))
      ensures b == Payload(NewFile(level, m))
    {
      var l := EncodeVarint32(level);
      var n := EncodeVarint64(m.number);
      var size := EncodeVarint64(m.size);
      var smallest := PutLengthPrefixedSlice(m.smallest);
      var largest := PutLengthPrefixedSlice(m.largest);
      b := l + (n + (size + (smallest + largest)));
    }

    static method PutIf(f: Option<Field>, dst: Bytes, ghost fields: seq<Field>, ghost e: Edit)
      returns (dst': Bytes, ghost fields': seq<Field>, ghost e': Edit)
      requires (f.Some? ==> FieldOk(f.value)) && IsStored(e, fields, dst)
      ensures IsStored(e', fields', dst') && e' == if f.Some? then With(e, f.value) else e
    {
      dst', fields', e' := dst, fields, e;
      if f.Some? {
        dst', fields' := Put(f.value, dst, fields, e);
        e' := With(e, f.value);
      }
    }

    method EncodeTo() returns (dst: Bytes)
      requires EditOk(Value())
      ensures Stores(Value(), dst)
    {
      ghost var v := Value();
      ghost var fields, e;
      dst, fields, e := PutNumbers();
      dst, fields, e := PutPointers(compactPointers, dst, fields, e);
      dst, fields, e := PutDeleted(deleted, dst, fields, e);
      dst, fields, e := PutAdded(added, dst, fields, e);
      assert e == v;
    }

    /** The comparator's name and the four numbers, those that are there. */
    method PutNumbers() returns (dst: Bytes, ghost fields: seq<Field>, ghost e: Edit)
      requires EditOk(Value())
      ensures IsStored(e, fields, dst)
      ensures e == EMPTY.(comparator := comparator, logNumber := logNumber, prevLogNumber := prevLogNumber,
                          nextFile := nextFile, lastSequence := lastSequence)
    {
      dst, fields, e := [], [], EMPTY;
      dst, fields, e := PutIf(if comparator.Some? then Some(ComparatorName(comparator.value)) else None, dst, fields, e);
      assert e == EMPTY.(comparator := comparator);
      dst, fields, e := PutIf(if logNumber.Some? then Some(LogNumber(logNumber.value)) else None, dst, fields, e);
      assert e == EMPTY.(comparator := comparator, logNumber := logNumber);
      dst, fields, e := PutIf(if prevLogNumber.Some? then Some(PrevLogNumber(prevLogNumber.value)) else None, dst, fields, e);
      dst, fields, e := PutIf(if nextFile.Some? then Some(NextFile(nextFile.value)) else None, dst, fields, e);
      dst, fields, e := PutIf(if lastSequence.Some? then Some(LastSequence(lastSequence.value)) else None, dst, fields, e);
    }

    static lemma TakeStep<T>(s: seq<T>, i: nat)
      requires i < |s|
      ensures s[..i + 1] == s[..i] + [s[i]]
    {
    }

    static method PutPointers(list: seq<(nat, Bytes)>, dst0: Bytes, ghost fields0: seq<Field>, ghost e0: Edit)
      returns (dst: Bytes, ghost fields: seq<Field>, ghost e: Edit)
      requires forall i :: 0 <= i < |list| ==> FieldOk(CompactPointer(list[i].0, list[i].1))
      requires IsStored(e0, fields0, dst0) && e0.compactPointers == []
      ensures IsStored(e, fields, dst) && e == e0.(compactPointers := list)
    {
      dst, fields, e := dst0, fields0, e0;
      for i := 0 to |list|
        invariant IsStored(e, fields, dst) && e == e0.(compactPointers := list[..i])
      {
        dst, fields := Put(CompactPointer(list[i].0, list[i].1), dst, fields, e);
        TakeStep(list, i);
        e := e0.(compactPointers := list[..i + 1]);
      }
      assert list[..|list|] == list;
    }

    static method PutDeleted(all: set<(nat, nat)>, dst0: Bytes, ghost fields0: seq<Field>, ghost e0: Edit)
      returns (dst: Bytes, ghost fields: seq<Field>, ghost e: Edit)
      requires forall d :: d in all ==> FieldOk(DeletedFile(d.0, d.1))
      requires IsStored(e0, fields0, dst0) && e0.deleted == {}
      ensures IsStored(e, fields, dst) && e == e0.(deleted := all)
    {
      dst, fields, e := dst0, fields0, e0;
      var rest := all;
      while rest != {}
        invariant rest <= all && IsStored(e, fields, dst) && e == e0.(deleted := all - rest)
        decreases |rest|
      {
        var d :| d in rest;
        dst, fields := Put(DeletedFile(d.0, d.1), dst, fields, e);
        WithoutOne(all, rest, d);
        e := With(e, DeletedFile(d.0, d.1));
        rest := rest - {d};
      }
    }

    static lemma WithoutOne<T>(all: set<T>, rest: set<T>, d: T)
      requires rest <= all && d in rest
      ensures all - (rest - {d}) == (all - rest) + {d} && |rest - {d}| < |rest|
    {
    }

    static method PutAdded(list: seq<(nat, Meta)>, dst0: Bytes, ghost fields0: seq<Field>, ghost e0: Edit)
      returns (dst: Bytes, ghost fields: seq<Field>, ghost e: Edit)
      requires forall i :: 0 <= i < |list| ==> FieldOk(NewFile(list[i].0, list[i].1))
      requires IsStored(e0, fields0, dst0) && e0.added == []
      ensures IsStored(e, fields, dst) && e == e0.(added := list)
    {
      dst, fields, e := dst0, fields0, e0;
      for i := 0 to |list|
        invariant IsStored(e, fields, dst) && e == e0.(added := list[..i])
      {
        dst, fields := Put(NewFile(list[i].0, list[i].1), dst, fields, e);
        TakeStep(list, i);
        e := e0.(added := list[..i + 1]);
      }
      assert list[..|list|] == list;
    }

    // ------------------------------------------------------------- decoding

    static method GetLevel(src: Bytes, p: nat, ghost level: nat) returns (r: Option<(nat, nat)>)
      ensures r.Some? ==> p < r.value.1 <= |src| && r.value.0 < NUM_LEVELS
      ensures level < NUM_LEVELS && VarintAt(src, p, |src|, level) ==> r == Some((level, p + |Varint(level)|))
    {
      r := GetVarint32Ptr(src, p, |src|, level);
      if r.Some? && r.value.0 >= NUM_LEVELS {
        r := None;
      }
    }

    /** The fields of a table file, behind its level. */
    static method GetMeta(src: Bytes, p: nat, ghost m: Meta) returns (r: Option<(Meta, nat)>)
      ensures r.Some? ==> p < r.value.1 <= |src|
      ensures FieldOk(NewFile(0, m)) && BytesAt(src, p, |src|, MetaBytes(m)) ==> r == Some((m, p + |MetaBytes(m)|))
    {
      ghost var good := FieldOk(NewFile(0, m)) && BytesAt(src, p, |src|, MetaBytes(m));
      if good {
        MetaParts(src, p, m);
      }
      var number := GetVarint64Ptr(src, p, |src|, m.number);
      if number.None? {
        return None;
      }
      var size := GetVarint64Ptr(src, number.value.1, |src|, m.size);
      if size.None? {
        return None;
      }
      var smallest := GetLengthPrefixedSlice(src, size.value.1, |src|, m.smallest);
      if smallest.None? {
        return None;
      }
      var largest := GetLengthPrefixedSlice(src, smallest.value.1, |src|, m.largest);
      if largest.None? {
        return None;
      }
      r := Some((Meta(number.value.0, size.value.0, smallest.value.0, largest.value.0), largest.value.1));
    }

    static function MetaBytes(m: Meta): Bytes {
      Varint(m.number) + (Varint(m.size) + (Prefixed(m.smallest) + Prefixed(m.largest)))
    }

    static lemma MetaParts(src: Bytes, p: nat, m: Meta)
      requires BytesAt(src, p, |src|, MetaBytes(m))
      ensures var q := p + |Varint(m.number)|;
              var r := q + |Varint(m.size)|;
              var s := r + |Prefixed(m.smallest)|;
              VarintAt(src, p, |src|, m.number) && VarintAt(src, q, |src|, m.size)
              && BytesAt(src, r, |src|, Prefixed(m.smallest)) && BytesAt(src, s, |src|, Prefixed(m.largest))
              && s + |Prefixed(m.largest)| == p + |MetaBytes(m)|
    {
      var a, b, c, d := Varint(m.number), Varint(m.size), Prefixed(m.smallest), Prefixed(m.largest);
      BytesAtSplit(src, p, |src|, a, b + (c + d));
      BytesAtSplit(src, p + |a|, |src|, b, c + d);
      BytesAtSplit(src, p + |a| + |b|, |src|, c, d);
    }

    /** The payload of a field lies at `p`, behind its tag. */
    static ghost predicate PayloadAt(src: Bytes, p: nat, tag: nat, f: Field) {
      FieldOk(f) && tag == TagOf(f) && BytesAt(src, p, |src|, Payload(f))
    }

    /** Reads a field whose tag has been read; a message says what is wrong with it. */
    method DecodeField(tag: nat, src: Bytes, p: nat, ghost f: Field) returns (msg: Option<string>, q: nat)
      requires p <= |src|
      modifies this
      ensures q <= |src| && (msg.None? ==> p < q)
      ensures PayloadAt(src, p, tag, f) ==> msg.None? && q == p + |Payload(f)| && Value() == With(old(Value()), f)
    {
      if tag == 1 {
        msg, q := DecodeComparator(src, p, f);
      } else if tag == 2 || tag == 9 || tag == 3 || tag == 4 {
        msg, q := DecodeNumber(tag, src, p, f);
      } else if tag == 5 {
        msg, q := DecodePointer(src, p, f);
      } else if tag == 6 {
        msg, q := DecodeDeleted(src, p, f);
      } else if tag == 7 {
        msg, q := DecodeNewFile(src, p, f);
      } else {
        msg, q := Some("unknown tag"), p;
      }
    }

    method DecodeComparator(src: Bytes, p: nat, ghost f: Field) returns (msg: Option<string>, q: nat)
      requires p <= |src|
      modifies this
      ensures q <= |src| && (msg.None? ==> p < q)
      ensures PayloadAt(src, p, 1, f) ==> msg.None? && q == p + |Payload(f)| && Value() == With(old(Value()), f)
    {
      var s := GetLengthPrefixedSlice(src, p, |src|, if f.ComparatorName? then f.name else []);
      if s.None? {
        return Some("comparator name"), p;
      }
      comparator := Some(s.value.0);
      return None, s.value.1;
    }

    method DecodeNumber(tag: nat, src: Bytes, p: nat, ghost f: Field) returns (msg: Option<string>, q: nat)
      requires p <= |src| && (tag == 2 || tag == 9 || tag == 3 || tag == 4)
      modifies this
      ensures q <= |src| && (msg.None? ==> p < q)
      ensures PayloadAt(src, p, tag, f) ==> msg.None? && q == p + |Payload(f)| && Value() == With(old(Value()), f)
    {
      var v := GetVarint64Ptr(src, p, |src|,
                              if f.LogNumber? || f.PrevLogNumber? || f.NextFile? || f.LastSequence? then f.n else 0);
      if v.None? {
        return Some(if tag == 2 then "log number" else if tag == 9 then "previous log number"
                    else if tag == 3 then "next file number" else "last sequence number"), p;
      }
      msg, q := None, v.value.1;
      if tag == 2 {
        logNumber := Some(v.value.0);
      } else if tag == 9 {
        prevLogNumber := Some(v.value.0);
      } else if tag == 3 {
        nextFile := Some(v.value.0);
      } else {
        lastSequence := Some(v.value.0);
      }
    }

    method DecodePointer(src: Bytes, p: nat, ghost f: Field) returns (msg: Option<string>, q: nat)
      requires p <= |src|
      modifies this
      ensures q <= |src| && (msg.None? ==> p < q)
      ensures PayloadAt(src, p, 5, f) ==> msg.None? && q == p + |Payload(f)| && Value() == With(old(Value()), f)
    {
      ghost var good := PayloadAt(src, p, 5, f);
      if good {
        BytesAtSplit(src, p, |src|, Varint(f.level), Prefixed(f.key));
      }
      var level := GetLevel(src, p, if good then f.level else 0);
      if level.Some? {
        var key := GetLengthPrefixedSlice(src, level.value.1, |src|, if good then f.key else []);
        if key.Some? {
          compactPointers := compactPointers + [(level.value.0, key.value.0)];
          return None, key.value.1;
        }
      }
      return Some("compaction pointer"), p;
    }

    method DecodeDeleted(src: Bytes, p: nat, ghost f: Field) returns (msg: Option<string>, q: nat)
      requires p <= |src|
      modifies this
      ensures q <= |src| && (msg.None? ==> p < q)
      ensures PayloadAt(src, p, 6, f) ==> msg.None? && q == p + |Payload(f)| && Value() == With(old(Value()), f)
    {
      var d := GetDeleted(src, p, f);
      if d.None? {
        return Some("deleted file"), p;
      }
      deleted := deleted + {d.value.0};
      return None, d.value.1;
    }

    static lemma DeletedParts(src: Bytes, p: nat, level: nat, n: nat)
      requires BytesAt(src, p, |src|, Payload(DeletedFile(level, n)))
      ensures VarintAt(src, p, |src|, level) && VarintAt(src, p + |Varint(level)|, |src|, n)
      ensures |Payload(DeletedFile(level, n))| == |Varint(level)| + |Varint(n)|
    {
      BytesAtSplit(src, p, |src|, Varint(level), Varint(n));
    }

    /** A level and a file number. */
    static method GetDeleted(src: Bytes, p: nat, ghost f: Field) returns (r: Option<((nat, nat), nat)>)
      ensures r.Some? ==> p < r.value.1 <= |src|
      ensures PayloadAt(src, p, 6, f) ==> r == Some(((f.level, f.n), p + |Payload(f)|))
    {
      ghost var l, n := if f.DeletedFile? then f.level else 0, if f.DeletedFile? then f.n else 0;
      if PayloadAt(src, p, 6, f) {
        DeletedParts(src, p, l, n);
      }
      var level := GetLevel(src, p, l);
      if level.None? {
        return None;
      }
      var number := GetVarint64Ptr(src, level.value.1, |src|, n);
      if number.None? {
        return None;
      }
      r := Some(((level.value.0, number.value.0), number.value.1));
    }

    method DecodeNewFile(src: Bytes, p: nat, ghost f: Field) returns (msg: Option<string>, q: nat)
      requires p <= |src|
      modifies this
      ensures q <= |src| && (msg.None? ==> p < q)
      ensures PayloadAt(src, p, 7, f) ==> msg.None? && q == p + |Payload(f)| && Value() == With(old(Value()), f)
    {
      ghost var good := PayloadAt(src, p, 7, f);
      if good {
        BytesAtSplit(src, p, |src|, Varint(f.level), MetaBytes(f.meta));
      }
      var level := GetLevel(src, p, if good then f.level else 0);
      if level.Some? {
        var meta := GetMeta(src, level.value.1, if good then f.meta else Meta(0, 0, [], []));
        if meta.Some? {
          added := added + [(level.value.0, meta.value.0)];
          return None, meta.value.1;
        }
      }
      return Some("new-file entry"), p;
    }

    /** What is left to read is the fields from the `k`th one on. */
    static ghost predicate Ahead(src: Bytes, p: nat, fields: seq<Field>, k: nat) {
      k <= |fields| && (forall i :: 0 <= i < |fields| ==> FieldOk(fields[i]))
      && BytesAt(src, p, |src|, Encoding(fields[k..])) && p + |Encoding(fields[k..])| == |src|
    }

    /** Reads an edit back; on a fresh object the result is exactly what was stored. */
    method DecodeFrom(src: Bytes, ghost fields: seq<Field>) returns (msg: Option<string>)
      modifies this
      ensures src == Encoding(fields) && (forall i :: 0 <= i < |fields| ==> FieldOk(fields[i])) ==>
                msg.None? && Value() == WithAll(EMPTY.(compactPointers := old(compactPointers)), fields)
    {
      ghost var start := EMPTY.(compactPointers := compactPointers);
      ghost var good := src == Encoding(fields) && forall i :: 0 <= i < |fields| ==> FieldOk(fields[i]);
      Clear();
      var p: nat, stop := 0, false;
      ghost var k: nat := 0;
      msg := None;
      assert fields[0..] == fields;
      while msg.None? && !stop
        invariant p <= |src|
        invariant good ==> msg.None? && Ahead(src, p, fields, k) && (stop ==> k == |fields|)
        invariant good ==> Value() == WithAll(start, fields[..k])
        decreases msg.None?, !stop, |src| - p
      {
        stop, msg, p := DecodeNext(src, p, fields, k);
        if good && !stop {
          TakeStep(fields, k);
          WithOneMore(start, fields[..k], fields[k]);
          k := k + 1;
        }
      }
      if msg.None? && p < |src| {
        msg := Some("invalid tag");
      }
      assert good ==> fields[..|fields|] == fields;
    }

    /** Reads one field, or finds that no further tag can be read. */
    method DecodeNext(src: Bytes, p: nat, ghost fields: seq<Field>, ghost k: nat)
      returns (stop: bool, msg: Option<string>, q: nat)
      requires p <= |src|
      modifies this
      ensures q <= |src| && (msg.None? && !stop ==> p < q) && (stop ==> msg.None? && q == p)
      ensures Ahead(src, p, fields, k) ==>
                msg.None? && stop == (k == |fields|)
                && if stop then Value() == old(Value())
                   else Ahead(src, q, fields, k + 1) && Value() == With(old(Value()), fields[k])
    {
      ghost var here := Ahead(src, p, fields, k) && k < |fields|;
      ghost var f := if here then fields[k] else LogNumber(0);
      if here {
        FieldAhead(src, p, fields, k);
      }
      var tag := GetVarint32Ptr(src, p, |src|, TagOf(f));
      if tag.None? {
        return true, None, p;
      }
      stop := false;
      msg, q := DecodeField(tag.value.0, src, tag.value.1, f);
    }

    /** The next field: its tag, its payload, and the fields behind it. */
    static lemma FieldAhead(src: Bytes, p: nat, fields: seq<Field>, k: nat)
      requires Ahead(src, p, fields, k) && k < |fields|
      ensures var f, q := fields[k], p + |Varint(TagOf(fields[k]))|;
              VarintAt(src, p, |src|, TagOf(f)) && PayloadAt(src, q, TagOf(f), f)
              && Ahead(src, q + |Payload(f)|, fields, k + 1)
    {
      var f := fields[k];
      assert fields[k..][1..] == fields[k + 1..];
      var tag, payload, rest := Varint(TagOf(f)), Payload(f), Encoding(fields[k + 1..]);
      assert Encoding(fields[k..]) == tag + payload + rest;
      BytesAtSplit(src, p, |src|, tag + payload, rest);
      BytesAtSplit(src, p, |src|, tag, payload);
    }
  }

  /** Encode, then decode into a fresh edit: nothing is lost. */
  method Recode(edit: VersionEdit) returns (copy: VersionEdit, msg: Option<string>)
    requires EditOk(edit.Value())
    ensures fresh(copy) && msg.None? && copy.Value() == edit.Value()
  {
    var data := edit.EncodeTo();
    ghost var fields :| IsStored(edit.Value(), fields, data);
    copy := new VersionEdit();
    msg := copy.DecodeFrom(data, fields);
  }
}
