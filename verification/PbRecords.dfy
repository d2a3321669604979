/** What the records of a message make of it when they are read back one by one. */
module PbRecords {
  import opened Entries
  import opened Coding
  import opened Pb

  // ------------------------------------------------------- what comes back

  function RecoveredDatum(kind: FieldType, v: Datum): Datum
    decreases kind, 0
  {
    match (kind, v)
    case (SubMessage(d), Struct(m)) => Struct(Recovered(d, m))
    case _ => v
  }

  function RecoveredAll(kind: FieldType, items: seq<Datum>): seq<Datum>
    decreases kind, 1
  {
    Map((v: Datum) => RecoveredDatum(kind, v), items)
  }

  /** A field that was left out has its default value. */
  function RecoveredSlot(d: Desc, m: Msg, i: nat): Slot
    requires i < |d.fields| && i < |m.slots|
    decreases d, 0
  {
    var f := d.fields[i];
    match (f.rule, m.slots[i])
    case (Required, One(v)) => One(RecoveredDatum(f.kind, v))
    case (Optional, Maybe(o)) => Maybe(if o.Some? then Some(RecoveredDatum(f.kind, o.value)) else None)
    case (Singular, One(v)) => if ZeroValue(f.kind, v) then DefaultSlot(f) else One(RecoveredDatum(f.kind, v))
    case (_, Many(items)) => Many(RecoveredAll(f.kind, items))
    case (_, slot) => slot
  }

  /** The field with a tag. */
  function TagIndex(fields: seq<Field>, tag: nat): (i: nat)
    ensures i <= |fields| && (i < |fields| ==> fields[i].tag == tag)
    ensures forall j :: 0 <= j < i ==> fields[j].tag != tag
  {
    if fields == [] then 0
    else
      var i := TagIndex(fields[..|fields| - 1], tag);
      if i < |fields| - 1 then i else if fields[|fields| - 1].tag == tag then |fields| - 1 else |fields|
  }

  function RecoveredChoice(d: Desc, c: Choice): Choice
    decreases d, 0
  {
    var i := TagIndex(d.fields, c.which);
    if i < |d.fields| then Choice(c.which, RecoveredDatum(d.fields[i].kind, c.v)) else c
  }

  /** What decoding the encoding of a message gives: the message, with default values in
      place of what was left out. */
  function Recovered(d: Desc, m: Msg): Msg
    decreases d, 1
  {
    if |m.slots| != |d.fields| then m
    else
      Msg(seq(|d.fields|, i requires 0 <= i < |d.fields| => RecoveredSlot(d, m, i)),
          Map((c: Option<Choice>) => if c.Some? then Some(RecoveredChoice(d, c.value)) else None, m.unions))
  }

  // --------------------------------------------------- what is not changed

  /** Every field without a flag that holds zero has zero for its default, at every depth. */
  predicate ZeroDefaults(kind: FieldType, v: Datum)
    decreases kind, 0
  {
    match (kind, v)
    case (SubMessage(d), Struct(m)) => ZeroDefaultsIn(d, m)
    case _ => true
  }

  predicate ZeroDefaultsAll(kind: FieldType, items: seq<Datum>)
    decreases kind, 1
  {
    forall k :: 0 <= k < |items| ==> ZeroDefaults(kind, items[k])
  }

  predicate ZeroDefaultsAt(d: Desc, m: Msg, i: nat)
    requires i < |d.fields| && i < |m.slots|
    decreases d, 0
  {
    var f := d.fields[i];
    match (f.rule, m.slots[i])
    case (Singular, One(v)) =>
      ZeroDefaults(f.kind, v) && (f.init.Some? && ZeroValue(f.kind, v) ==> ZeroValue(f.kind, f.init.value))
    case (_, One(v)) => ZeroDefaults(f.kind, v)
    case (_, Maybe(o)) => o.Some? ==> ZeroDefaults(f.kind, o.value)
    case (_, Many(items)) => ZeroDefaultsAll(f.kind, items)
    case _ => true
  }

  predicate ZeroDefaultsOf(d: Desc, c: Choice)
    decreases d, 0
  {
    var i := TagIndex(d.fields, c.which);
    i < |d.fields| ==> ZeroDefaults(d.fields[i].kind, c.v)
  }

  predicate ZeroDefaultsIn(d: Desc, m: Msg)
    decreases d, 1
  {
    (forall i :: 0 <= i < |d.fields| && i < |m.slots| ==> ZeroDefaultsAt(d, m, i))
    && forall u :: 0 <= u < |m.unions| && m.unions[u].Some? ==> ZeroDefaultsOf(d, m.unions[u].value)
  }

  /** A scalar has one zero. */
  lemma OneZero(kind: FieldType, v: Datum)
    requires TypeOk(kind) && Typed(kind, v) && !kind.SubMessage?
    ensures ZeroValue(kind, v) <==> v == ZeroOf(kind) && !kind.FixedBytes?
  {
  }

  /** A message that is left out comes back exactly when all its defaults are zero. */
  lemma {:induction false} ZeroIsDefault(d: Desc, m: Msg)
    requires DescOk(d) && TypedMsg(d, m) && ZeroMsg(d, m)
    ensures m == Default(d) <==> ZeroDefaultsIn(d, m)
    decreases d
  {
    forall i: nat | i < |d.fields|
      ensures m.slots[i] == DefaultSlot(d.fields[i]) <==> ZeroDefaultsAt(d, m, i)
    {
      ZeroSlotIsDefault(d, m, i);
    }
    forall u: nat | u < |m.unions|
      ensures m.unions[u] == None
    {
      if m.unions[u].Some? {
        var i :| 0 <= i < |d.fields| && IsChoice(d.fields[i], u, m.unions[u].value);
        assert ZeroField(d, m, i);
      }
    }
    assert m.unions == Default(d).unions;
    if ZeroDefaultsIn(d, m) {
      assert m.slots == Default(d).slots;
    }
  }

  lemma {:induction false} ZeroSlotIsDefault(d: Desc, m: Msg, i: nat)
    requires DescOk(d) && TypedMsg(d, m) && i < |d.fields| && ZeroField(d, m, i)
    ensures m.slots[i] == DefaultSlot(d.fields[i]) <==> ZeroDefaultsAt(d, m, i)
    decreases d, 0
  {
    var f := d.fields[i];
    assert FieldOk(f, d.unions) && TypedSlot(f, m.slots[i]);
    if f.rule.Singular? {
      ZeroValueIsInit(f, m.slots[i].v);
    }
  }

  lemma {:induction false} ZeroValueIsInit(f: Field, v: Datum)
    requires TypeOk(f.kind) && Typed(f.kind, v) && ZeroValue(f.kind, v)
    requires f.init.Some? ==> !f.kind.SubMessage? && Typed(f.kind, f.init.value)
    ensures v == InitValue(f) <==>
              ZeroDefaults(f.kind, v) && (f.init.Some? && ZeroValue(f.kind, v) ==> ZeroValue(f.kind, f.init.value))
    decreases f
  {
    if f.kind.SubMessage? {
      ZeroIsDefault(f.kind.desc, v.msg);
    } else {
      OneZero(f.kind, v);
      if f.init.Some? {
        OneZero(f.kind, f.init.value);
      }
    }
  }

  /** A message comes back unchanged exactly when no field without a flag holds zero while
      its default is something else. */
  lemma {:induction false} RecoveredIsSame(d: Desc, m: Msg)
    requires DescOk(d) && TypedMsg(d, m)
    ensures Recovered(d, m) == m <==> ZeroDefaultsIn(d, m)
    decreases d, 1
  {
    forall i: nat | i < |d.fields|
      ensures RecoveredSlot(d, m, i) == m.slots[i] <==> ZeroDefaultsAt(d, m, i)
    {
      SlotIsSame(d, m, i);
    }
    forall u: nat | u < |m.unions| && m.unions[u].Some?
      ensures RecoveredChoice(d, m.unions[u].value) == m.unions[u].value <==> ZeroDefaultsOf(d, m.unions[u].value)
    {
      ChoiceIsSame(d, m, u);
    }
    var r := Recovered(d, m);
    assert r.slots == m.slots <==> forall i :: 0 <= i < |d.fields| ==> RecoveredSlot(d, m, i) == m.slots[i];
    assert r.unions == m.unions <==>
        forall u :: 0 <= u < |m.unions| && m.unions[u].Some? ==> RecoveredChoice(d, m.unions[u].value) == m.unions[u].value;
  }

  lemma {:induction false} ChoiceIsSame(d: Desc, m: Msg, u: nat)
    requires DescOk(d) && TypedMsg(d, m) && u < |m.unions| && m.unions[u].Some?
    ensures RecoveredChoice(d, m.unions[u].value) == m.unions[u].value <==> ZeroDefaultsOf(d, m.unions[u].value)
    decreases d, 0
  {
    var c := m.unions[u].value;
    var i :| 0 <= i < |d.fields| && IsChoice(d.fields[i], u, c);
    TagsDiffer(d, i, TagIndex(d.fields, c.which));
    assert FieldOk(d.fields[i], d.unions);
    DatumIsSame(d.fields[i].kind, c.v);
  }

  lemma {:induction false} SlotIsSame(d: Desc, m: Msg, i: nat)
    requires DescOk(d) && TypedMsg(d, m) && i < |d.fields|
    ensures RecoveredSlot(d, m, i) == m.slots[i] <==> ZeroDefaultsAt(d, m, i)
    decreases d, 0
  {
    var f, slot := d.fields[i], m.slots[i];
    assert FieldOk(f, d.unions) && TypedSlot(f, slot);
    match slot
    case One(v) =>
      DatumIsSame(f.kind, v);
      if f.rule.Singular? && ZeroValue(f.kind, v) {
        ZeroValueIsInit(f, v);
      }
    case Maybe(o) =>
      if o.Some? {
        DatumIsSame(f.kind, o.value);
      }
    case Many(items) =>
      ItemsAreSame(f.kind, items);
    case Shared =>
  }

  lemma {:induction false} ItemsAreSame(kind: FieldType, items: seq<Datum>)
    requires TypeOk(kind) && forall k :: 0 <= k < |items| ==> Typed(kind, items[k])
    ensures RecoveredAll(kind, items) == items <==> ZeroDefaultsAll(kind, items)
    decreases kind, 1
  {
    forall k | 0 <= k < |items|
      ensures RecoveredDatum(kind, items[k]) == items[k] <==> ZeroDefaults(kind, items[k])
    {
      DatumIsSame(kind, items[k]);
    }
    var all := RecoveredAll(kind, items);
    assert all == items <==> forall k :: 0 <= k < |items| ==> all[k] == items[k];
  }

  lemma {:induction false} DatumIsSame(kind: FieldType, v: Datum)
    requires TypeOk(kind) && Typed(kind, v)
    ensures RecoveredDatum(kind, v) == v <==> ZeroDefaults(kind, v)
    decreases kind, 0
  {
    if kind.SubMessage? {
      RecoveredIsSame(kind.desc, v.msg);
    }
  }

  // -------------------------------------------------------- reading records

  /** The required fields before field `i`. */
  function RequiredBefore(fields: seq<Field>, i: nat): nat
    requires i <= |fields|
  {
    if i == 0 then 0 else RequiredBefore(fields, i - 1) + if fields[i - 1].rule.Required? then 1 else 0
  }

  const MAX_REQUIRED_FIELDS: nat := 64

  /** The message so far; the fixed-count array being read and how much of it has come;
      the required fields seen. */
  datatype State = State(msg: Msg, fixedField: Option<nat>, fixedSize: nat, seen: set<nat>)

  /** The fixed-count array read last has all its items. */
  predicate FixedDone(d: Desc, st: State) {
    st.fixedField.Some? && st.fixedField.value < |d.fields| ==>
      d.fields[st.fixedField.value].rule.FixedCount? && st.fixedSize == d.fields[st.fixedField.value].rule.max
  }

  function SizeSoFar(st: State, i: nat): nat {
    if st.fixedField == Some(i) then st.fixedSize else 0
  }

  /** A record fits in here: its field has its default value, or room for more. */
  predicate Ready(d: Desc, st: State, r: Rec) {
    r.i < |d.fields| && r.i < |st.msg.slots| && r.body != []
    && (r.packed ==> Packable(d.fields[r.i].kind) && (d.fields[r.i].rule.Repeated? || d.fields[r.i].rule.FixedCount?))
    && (!r.packed ==> |r.body| == 1)
    && match (d.fields[r.i].rule, st.msg.slots[r.i])
       case (Required, slot) => slot == DefaultSlot(d.fields[r.i])
       case (Singular, slot) => slot == DefaultSlot(d.fields[r.i])
       case (Optional, slot) => slot == Maybe(None)
       case (Repeated(max), Many(items)) => |items| + |r.body| <= max
       case (FixedCount(max), Many(items)) =>
         |items| == max && SizeSoFar(st, r.i) + |r.body| <= max && (st.fixedField == Some(r.i) || FixedDone(d, st))
       case (Oneof(u), _) => u < |st.msg.unions| && st.msg.unions[u] == None
       case _ => false
  }

  /** What a record makes of a slot. */
  function Stored(f: Field, slot: Slot, size: nat, body: seq<Datum>): Slot
    requires body != []
  {
    match (f.rule, slot)
    case (Optional, _) => Maybe(Some(body[0]))
    case (Repeated(_), Many(items)) => Many(items + body)
    case (FixedCount(_), Many(items)) => if size + |body| <= |items| then Many(items[..size] + body + items[size + |body|..]) else slot
    case (Oneof(_), _) => slot
    case _ => One(body[0])
  }

  function Apply(d: Desc, st: State, r: Rec): State
    requires Ready(d, st, r)
  {
    var f := d.fields[r.i];
    var body := RecoveredAll(f.kind, r.body);
    var msg := st.msg.(slots := st.msg.slots[r.i := Stored(f, st.msg.slots[r.i], SizeSoFar(st, r.i), body)]);
    match f.rule
    case Oneof(u) => st.(msg := msg.(unions := msg.unions[u := Some(Choice(f.tag, body[0]))]))
    case FixedCount(_) => st.(msg := msg, fixedField := Some(r.i), fixedSize := SizeSoFar(st, r.i) + |r.body|)
    case Required => st.(msg := msg, seen := WithSeen(d, r.i, st.seen))
    case _ => st.(msg := msg)
  }

  function WithSeen(d: Desc, i: nat, seen: set<nat>): set<nat>
    requires i < |d.fields|
  {
    var k := RequiredBefore(d.fields, i);
    if k < MAX_REQUIRED_FIELDS then seen + {k} else seen
  }

  /** Reading the records takes `st` to `z`, with every record fitting in. */
  ghost predicate Goes(d: Desc, st: State, recs: seq<Rec>, z: State)
    decreases |recs|
  {
    if recs == [] then st == z else Ready(d, st, recs[0]) && Goes(d, Apply(d, st, recs[0]), recs[1..], z)
  }

  lemma {:induction false} GoesOn(d: Desc, st: State, a: seq<Rec>, y: State, b: seq<Rec>, z: State)
    requires Goes(d, st, a, y) && Goes(d, y, b, z)
    ensures Goes(d, st, a + b, z)
    decreases |a|
  {
    if a == [] {
      assert a + b == b;
    } else {
      assert (a + b)[0] == a[0] && (a + b)[1..] == a[1..] + b;
      GoesOn(d, Apply(d, st, a[0]), a[1..], y, b, z);
    }
  }

  lemma GoesOne(d: Desc, st: State, r: Rec)
    requires Ready(d, st, r)
    ensures Goes(d, st, [r], Apply(d, st, r))
  {
    assert [r][1..] == [];
  }

  // ------------------------------------------------------------ whole fields

  /** The message when the first `n` fields have been read. */
  function PartSlots(d: Desc, m: Msg, n: nat): seq<Slot>
    requires |d.fields| == |m.slots|
  {
    seq(|d.fields|, i requires 0 <= i < |d.fields| => if i < n then RecoveredSlot(d, m, i) else DefaultSlot(d.fields[i]))
  }

  function PartChoice(d: Desc, c: Option<Choice>, n: nat): Option<Choice> {
    if c.Some? && TagIndex(d.fields, c.value.which) < n then Some(RecoveredChoice(d, c.value)) else None
  }

  function PartMsg(d: Desc, m: Msg, n: nat): Msg
    requires |d.fields| == |m.slots|
  {
    Msg(PartSlots(d, m, n), Map((c: Option<Choice>) => PartChoice(d, c, n), m.unions))
  }

  /** The required fields among the first `n` have been seen, as many as are counted. */
  ghost predicate SeenTo(d: Desc, seen: set<nat>, n: nat)
    requires n <= |d.fields|
  {
    forall k: nat :: k < RequiredBefore(d.fields, n) && k < MAX_REQUIRED_FIELDS ==> k in seen
  }

  ghost predicate FieldsRead(d: Desc, m: Msg, n: nat, st: State)
    requires n <= |d.fields| == |m.slots|
  {
    st.msg == PartMsg(d, m, n) && FixedDone(d, st) && SeenTo(d, st.seen, n) && (st.fixedField.Some? ==> st.fixedField.value < n)
  }

  lemma PartSlotsStep(d: Desc, m: Msg, n: nat)
    requires n < |d.fields| == |m.slots|
    ensures PartSlots(d, m, n + 1) == PartSlots(d, m, n)[n := RecoveredSlot(d, m, n)]
  {
  }

  lemma TagIndexIs(d: Desc, i: nat)
    requires DescOk(d) && i < |d.fields|
    ensures TagIndex(d.fields, d.fields[i].tag) == i
  {
    var j := TagIndex(d.fields, d.fields[i].tag);
    TagsDiffer(d, i, j);
  }

  /** Only the choice of the field's own union changes when a field is read. */
  lemma PartChoicesStep(d: Desc, m: Msg, n: nat)
    requires DescOk(d) && TypedMsg(d, m) && n < |d.fields|
    ensures var f, before, after := d.fields[n], PartMsg(d, m, n).unions, PartMsg(d, m, n + 1).unions;
            |before| == |after| == |m.unions|
            && forall u :: 0 <= u < |m.unions| ==>
                 if f.rule == Oneof(u) && m.unions[u].Some? && m.unions[u].value.which == f.tag then
                   before[u] == None && after[u] == Some(Choice(f.tag, RecoveredDatum(f.kind, m.unions[u].value.v)))
                 else after[u] == before[u]
  {
    var f := d.fields[n];
    forall u: nat | u < |m.unions| && m.unions[u].Some?
      ensures TagIndex(d.fields, m.unions[u].value.which) == n <==> f.rule == Oneof(u) && m.unions[u].value.which == f.tag
    {
      var c := m.unions[u].value;
      var i :| 0 <= i < |d.fields| && IsChoice(d.fields[i], u, c);
      TagIndexIs(d, i);
      TagIndexIs(d, n);
    }
  }

  // ----------------------------------------------------------------- arrays

  function ZeroItems(f: Field): seq<Datum> {
    match f.rule
    case FixedCount(max) => seq(max, _ => ZeroOf(f.kind))
    case _ => []
  }

  /** An array with its first `k` items. */
  function MidSlot(f: Field, items: seq<Datum>, k: nat): Slot
    requires k <= |items|
  {
    Many(RecoveredAll(f.kind, items)[..k] + if k <= |ZeroItems(f)| then ZeroItems(f)[k..] else [])
  }

  /** The state when `k` items of field `i` have been read. */
  function ItemState(st: State, f: Field, i: nat, items: seq<Datum>, k: nat): State
    requires i < |st.msg.slots| && k <= |items|
  {
    if k == 0 then st
    else
      var msg := st.msg.(slots := st.msg.slots[i := MidSlot(f, items, k)]);
      if f.rule.FixedCount? then st.(msg := msg, fixedField := Some(i), fixedSize := k) else st.(msg := msg)
  }

  ghost predicate ArrayFits(d: Desc, st: State, i: nat, items: seq<Datum>) {
    i < |d.fields| && i < |st.msg.slots| && st.msg.slots[i] == DefaultSlot(d.fields[i]) && FixedDone(d, st)
    && st.fixedField != Some(i)
    && match d.fields[i].rule
       case Repeated(max) => |items| <= max
       case FixedCount(max) => |items| == max
       case _ => false
  }

  lemma ItemStateIs(d: Desc, st: State, i: nat, items: seq<Datum>, k: nat)
    requires ArrayFits(d, st, i, items) && k <= |items|
    ensures var f, y := d.fields[i], ItemState(st, d.fields[i], i, items, k);
            y.msg == st.msg.(slots := st.msg.slots[i := MidSlot(f, items, k)]) && y.seen == st.seen
            && SizeSoFar(y, i) == (if f.rule.FixedCount? then k else 0)
            && (y.fixedField == Some(i) || FixedDone(d, y))
  {
    assert MidSlot(d.fields[i], items, 0) == DefaultSlot(d.fields[i]);
    assert st.msg.slots[i := st.msg.slots[i]] == st.msg.slots;
  }

  /** Some more items of an array. */
  lemma ArrayStep(d: Desc, st: State, i: nat, items: seq<Datum>, k: nat, n: nat, packed: bool)
    requires ArrayFits(d, st, i, items) && k < n <= |items|
    requires if packed then Packable(d.fields[i].kind) else n == k + 1
    ensures var f, r := d.fields[i], Rec(i, items[k..n], packed);
            Ready(d, ItemState(st, f, i, items, k), r)
            && Apply(d, ItemState(st, f, i, items, k), r) == ItemState(st, f, i, items, n)
  {
    var f, r := d.fields[i], Rec(i, items[k..n], packed);
    var y := ItemState(st, f, i, items, k);
    ItemStateIs(d, st, i, items, k);
    assert Ready(d, y, r);
    BodyStored(f, items, k, n);
    assert Apply(d, y, r).msg.slots == st.msg.slots[i := MidSlot(f, items, n)];
  }

  lemma BodyStored(f: Field, items: seq<Datum>, k: nat, n: nat)
    requires k < n <= |items| && (f.rule.Repeated? || f.rule.FixedCount?) && (f.rule.FixedCount? ==> |items| == f.rule.max)
    ensures RecoveredAll(f.kind, items[k..n]) != []
    ensures Stored(f, MidSlot(f, items, k), if f.rule.FixedCount? then k else 0, RecoveredAll(f.kind, items[k..n]))
            == MidSlot(f, items, n)
  {
    var all := RecoveredAll(f.kind, items);
    assert RecoveredAll(f.kind, items[k..n]) == all[k..n];
    StoredItems(f, all, k, n);
  }

  lemma StoredItems(f: Field, all: seq<Datum>, k: nat, n: nat)
    requires k < n <= |all| && (f.rule.FixedCount? ==> |all| == f.rule.max)
    requires f.rule.Repeated? || f.rule.FixedCount?
    ensures var zeros := ZeroItems(f);
            Stored(f, Many(all[..k] + if k <= |zeros| then zeros[k..] else []), if f.rule.FixedCount? then k else 0, all[k..n])
            == Many(all[..n] + if n <= |zeros| then zeros[n..] else [])
  {
    var zeros := ZeroItems(f);
    if f.rule.FixedCount? {
      var items := all[..k] + zeros[k..];
      assert items[..k] == all[..k] && items[n..] == zeros[n..];
      assert all[..k] + all[k..n] + zeros[n..] == all[..n] + zeros[n..];
    } else {
      assert all[..k] + all[k..n] == all[..n];
      assert all[..k] + [] == all[..k];
    }
  }

  lemma {:induction false} UnpackedGoes(d: Desc, st: State, i: nat, items: seq<Datum>, k: nat)
    requires ArrayFits(d, st, i, items) && k <= |items| && !Packable(d.fields[i].kind) && items != []
    ensures var f := d.fields[i];
            Goes(d, ItemState(st, f, i, items, k), ArrayRecords(f.kind, i, items)[k..], ItemState(st, f, i, items, |items|))
    decreases |items| - k
  {
    var f := d.fields[i];
    var recs := ArrayRecords(f.kind, i, items);
    if k < |items| {
      ArrayStep(d, st, i, items, k, k + 1, false);
      assert recs[k..][0] == Rec(i, items[k..k + 1], false);
      UnpackedGoes(d, st, i, items, k + 1);
      assert recs[k..][1..] == recs[k + 1..];
    }
  }

  /** All records of an array. */
  lemma ArrayGoes(d: Desc, st: State, i: nat, items: seq<Datum>)
    requires ArrayFits(d, st, i, items)
    ensures var f := d.fields[i];
            Goes(d, st, ArrayRecords(f.kind, i, items), ItemState(st, f, i, items, |items|))
  {
    var f := d.fields[i];
    var recs := ArrayRecords(f.kind, i, items);
    if items == [] {
    } else if Packable(f.kind) {
      ArrayStep(d, st, i, items, 0, |items|, true);
      assert items[0..|items|] == items;
      GoesOne(d, st, Rec(i, items, true));
    } else {
      UnpackedGoes(d, st, i, items, 0);
      assert recs[0..] == recs;
    }
  }

  // ---------------------------------------------------------- whole messages

  /** Field `n`'s slot is all that changes when an array is read. */
  lemma ArrayRead(d: Desc, m: Msg, n: nat, st: State) returns (z: State)
    requires DescOk(d) && TypedMsg(d, m) && n < |d.fields| && FieldsRead(d, m, n, st)
    requires m.slots[n].Many?
    requires d.fields[n].rule.FixedCount? || (d.fields[n].rule.Repeated? && |m.slots[n].items| <= d.fields[n].rule.max)
    ensures Goes(d, st, FieldRecords(d, m, n), z) && FieldsRead(d, m, n + 1, z)
  {
    var f := d.fields[n];
    assert FieldOk(f, d.unions) && TypedSlot(f, m.slots[n]);
    var items := m.slots[n].items;
    assert st.msg.slots[n] == DefaultSlot(f);
    ArrayGoes(d, st, n, items);
    z := ItemState(st, f, n, items, |items|);
    ItemStateIs(d, st, n, items, |items|);
    WholeArray(f, items);
    assert RecoveredSlot(d, m, n) == Many(RecoveredAll(f.kind, items));
    PartSlotsStep(d, m, n);
    PartChoicesStep(d, m, n);
    assert z.msg.unions == PartMsg(d, m, n + 1).unions;
  }

  lemma WholeArray(f: Field, items: seq<Datum>)
    requires f.rule.FixedCount? ==> |items| == f.rule.max
    ensures MidSlot(f, items, |items|) == Many(RecoveredAll(f.kind, items))
  {
    var all := RecoveredAll(f.kind, items);
    assert all[..|items|] == all && all + [] == all;
    if f.rule.FixedCount? {
      assert ZeroItems(f)[|items|..] == [];
    }
  }

  lemma RecoveredOne(kind: FieldType, v: Datum)
    ensures RecoveredAll(kind, [v]) == [RecoveredDatum(kind, v)]
  {
  }

  /** A field of one value. */
  lemma ValueRead(d: Desc, m: Msg, n: nat, v: Datum, st: State) returns (z: State)
    requires DescOk(d) && TypedMsg(d, m) && n < |d.fields| && FieldsRead(d, m, n, st)
    requires FieldRecords(d, m, n) == [Rec(n, [v], false)] && !d.fields[n].rule.FixedCount? && !d.fields[n].rule.Repeated?
    ensures Goes(d, st, FieldRecords(d, m, n), z) && FieldsRead(d, m, n + 1, z)
  {
    var f, r := d.fields[n], Rec(n, [v], false);
    assert FieldOk(f, d.unions) && TypedSlot(f, m.slots[n]);
    PartSlotsStep(d, m, n);
    PartChoicesStep(d, m, n);
    RecoveredOne(f.kind, v);
    assert st.msg.slots[n] == DefaultSlot(f);
    assert Ready(d, st, r);
    GoesOne(d, st, r);
    z := Apply(d, st, r);
    assert Stored(f, st.msg.slots[n], SizeSoFar(st, n), [RecoveredDatum(f.kind, v)]) == RecoveredSlot(d, m, n);
    assert z.msg.slots == PartSlots(d, m, n + 1);
    assert z.msg.unions == PartMsg(d, m, n + 1).unions;
  }

  /** A field that is left out. */
  lemma NothingRead(d: Desc, m: Msg, n: nat, st: State)
    requires DescOk(d) && TypedMsg(d, m) && n < |d.fields| && FieldsRead(d, m, n, st)
    requires FieldRecords(d, m, n) == [] && !d.fields[n].rule.FixedCount? && !d.fields[n].rule.Repeated?
    ensures FieldsRead(d, m, n + 1, st)
  {
    var f := d.fields[n];
    assert FieldOk(f, d.unions) && TypedSlot(f, m.slots[n]);
    PartSlotsStep(d, m, n);
    PartChoicesStep(d, m, n);
    assert RecoveredSlot(d, m, n) == DefaultSlot(f) == PartSlots(d, m, n)[n];
    assert PartSlots(d, m, n + 1) == PartSlots(d, m, n);
    assert PartMsg(d, m, n).unions == PartMsg(d, m, n + 1).unions;
  }

  lemma FieldGoes(d: Desc, m: Msg, n: nat, st: State, slack: nat) returns (z: State)
    requires DescOk(d) && TypedMsg(d, m) && n < |d.fields| && FieldsRead(d, m, n, st) && WithinField(d, m, n, slack)
    ensures Goes(d, st, FieldRecords(d, m, n), z) && FieldsRead(d, m, n + 1, z)
  {
    var f := d.fields[n];
    assert FieldOk(f, d.unions) && TypedSlot(f, m.slots[n]);
    if f.rule.Repeated? || f.rule.FixedCount? {
      z := ArrayRead(d, m, n, st);
    } else if FieldRecords(d, m, n) == [] {
      NothingRead(d, m, n, st);
      z := st;
    } else {
      z := ValueRead(d, m, n, FieldRecords(d, m, n)[0].body[0], st);
    }
  }

  lemma {:induction false} FieldsGo(d: Desc, m: Msg, n: nat, slack: nat) returns (z: State)
    requires DescOk(d) && TypedMsg(d, m) && n <= |d.fields| && WithinMsg(d, m, slack)
    ensures Goes(d, State(Default(d), None, 0, {}), Flatten(FieldGroups(d, m)[..n]), z) && FieldsRead(d, m, n, z)
  {
    var st := State(Default(d), None, 0, {});
    if n == 0 {
      z := st;
      assert PartMsg(d, m, 0) == Default(d);
    } else {
      var y := FieldsGo(d, m, n - 1, slack);
      assert WithinField(d, m, n - 1, slack);
      z := FieldGoes(d, m, n - 1, y, slack);
      var groups := FieldGroups(d, m);
      assert groups[..n][..n - 1] == groups[..n - 1] && groups[..n][n - 1] == FieldRecords(d, m, n - 1);
      GoesOn(d, st, Flatten(groups[..n - 1]), y, FieldRecords(d, m, n - 1), z);
    }
  }

  /** From default values, the records of a message take the decoder to the recovered
      message, with every array complete and every required field seen. */
  lemma MessageGoes(d: Desc, m: Msg, slack: nat) returns (z: State)
    requires DescOk(d) && TypedMsg(d, m) && WithinMsg(d, m, slack)
    ensures Goes(d, State(Default(d), None, 0, {}), Records(d, m), z)
    ensures z.msg == Recovered(d, m) && FixedDone(d, z) && SeenTo(d, z.seen, |d.fields|)
  {
    z := FieldsGo(d, m, |d.fields|, slack);
    assert FieldGroups(d, m)[..|d.fields|] == FieldGroups(d, m);
    AllRead(d, m);
  }

  lemma AllRead(d: Desc, m: Msg)
    requires DescOk(d) && TypedMsg(d, m)
    ensures PartMsg(d, m, |d.fields|) == Recovered(d, m)
  {
    var n := |d.fields|;
    forall u: nat | u < |m.unions|
      ensures PartMsg(d, m, n).unions[u] == Recovered(d, m).unions[u]
    {
      if m.unions[u].Some? {
        var c := m.unions[u].value;
        var i :| 0 <= i < |d.fields| && IsChoice(d.fields[i], u, c);
        TagIndexIs(d, i);
      }
    }
    assert PartSlots(d, m, n) == Recovered(d, m).slots;
    assert PartMsg(d, m, n).unions == Recovered(d, m).unions;
  }
}
