/** The writer queue: every thread that writes joins a queue, the thread at the front
    commits a group of waiting batches for all of them (db/db_impl.cc, Write,
    BuildBatchGroup). A state of the machine is what the threads share, together with
    where each thread stands; the threads take their steps in any order. */
module GroupCommit {
  import opened Entries
  import opened Store

  /** A call of Write: the batch, if any, and whether it is to be synced. */
  datatype Writer = Writer(id: nat, ops: Option<seq<Op>>, sync: bool)

  datatype Record = Record(first: nat, ops: seq<Op>)

  /** A group: the first `count` writers of the queue, their operations in one batch,
      and the first sequence number. `merged` says that the shared batch holds them. */
  datatype Group = Group(count: nat, first: nat, ops: seq<Op>, merged: bool)

  /** Where a thread stands. Only the steps between two of these hold the mutex. */
  datatype PC =
    | Waiting
    | Leading
    | Logging(g: Group)
    | Syncing(g: Group)
    | Inserting(g: Group, n: nat)
    | Finishing(g: Group, logged: bool, ok: bool, syncError: bool)
    | Returned(ok: bool)

  predicate Active(pc: PC) {
    !pc.Waiting? && !pc.Returned?
  }

  /** What became of a group. */
  datatype Served = Served(writers: seq<Writer>, first: nat, ops: seq<Op>, logged: bool, ok: bool)

  /** `start` and `base` are the last sequence number and the entries at the beginning;
      `arrivals` and `served` only record what happened. */
  datatype State = State(queue: seq<Writer>, pcs: map<nat, PC>, done: map<nat, bool>, tmp: seq<Op>, last: nat,
                         log: seq<Record>, synced: nat, mem: set<Entry>, bgError: bool,
                         start: nat, base: set<Entry>, arrivals: seq<Writer>, served: seq<Served>)

  // --------------------------------------------------------------- batches

  /** The operations of several writers, one after the other. */
  function Merged(writers: seq<Writer>): seq<Op> {
    if writers == [] then []
    else
      var w := writers[|writers| - 1];
      Merged(writers[..|writers| - 1]) + if w.ops.Some? then w.ops.value else []
  }

  function TotalSize(byteSize: seq<Op> -> nat, writers: seq<Writer>): nat {
    if writers == [] then 0
    else
      var w := writers[|writers| - 1];
      TotalSize(byteSize, writers[..|writers| - 1]) + if w.ops.Some? then byteSize(w.ops.value) else 0
  }

  function MaxSize(size: nat): nat {
    if size <= 0x2_0000 then size + 0x2_0000 else 0x10_0000
  }

  /** What the leader may take along, and that it stops only where it must. */
  ghost predicate IsGroup(byteSize: seq<Op> -> nat, queue: seq<Writer>, n: nat, ops: seq<Op>) {
    1 <= n <= |queue| && queue[0].ops.Some? && ops == Merged(queue[..n])
    && (!queue[0].sync ==> forall i :: 0 <= i < n ==> !queue[i].sync)
    && var limit := MaxSize(byteSize(queue[0].ops.value));
    (forall i :: 1 <= i < n && queue[i].ops.Some? ==> TotalSize(byteSize, queue[..i + 1]) <= limit)
    && (n < |queue| ==>
          (queue[n].sync && !queue[0].sync)
          || (queue[n].ops.Some? && TotalSize(byteSize, queue[..n + 1]) > limit))
  }

  lemma MergedStep(queue: seq<Writer>, i: nat)
    requires i < |queue|
    ensures Merged(queue[..i + 1]) == Merged(queue[..i]) + if queue[i].ops.Some? then queue[i].ops.value else []
  {
    assert queue[..i + 1][..i] == queue[..i];
  }

  lemma SizeStep(byteSize: seq<Op> -> nat, queue: seq<Writer>, i: nat)
    requires i < |queue|
    ensures TotalSize(byteSize, queue[..i + 1])
            == TotalSize(byteSize, queue[..i]) + if queue[i].ops.Some? then byteSize(queue[i].ops.value) else 0
  {
    assert queue[..i + 1][..i] == queue[..i];
  }

  lemma {:induction false} MergedConcat(a: seq<Writer>, b: seq<Writer>)
    ensures Merged(a + b) == Merged(a) + Merged(b)
  {
    if b == [] {
      assert a + b == a;
    } else {
      var n := |b| - 1;
      MergedConcat(a, b[..n]);
      assert (a + b)[..|a + b| - 1] == a + b[..n];
    }
  }

  lemma BatchBounds(ops: seq<Op>, first: nat)
    requires first + |ops| <= MAX_SEQUENCE
    ensures forall e :: e in Batch(ops, first) ==> first <= e.k.sequence < first + |ops|
  {
  }

  /** A part of a merged batch keeps its operations and its sequence numbers. */
  lemma PartOfBatch(a: seq<Op>, b: seq<Op>, c: seq<Op>, first: nat)
    requires first + |a + b + c| <= MAX_SEQUENCE
    ensures Batch(b, first + |a|) <= Batch(a + b + c, first)
  {
    forall e | e in Batch(b, first + |a|)
      ensures e in Batch(a + b + c, first)
    {
      var i :| 0 <= i < |b| && e == EntryOf(b[i], first + |a| + i);
      assert (a + b + c)[|a| + i] == b[i];
    }
  }

  // ----------------------------------------------------------------- steps

  ghost predicate Front(st: State, id: nat) {
    st.queue != [] && st.queue[0].id == id && id in st.pcs
  }

  ghost predicate Enqueue(st: State, st': State, w: Writer) {
    w.id !in st.pcs
    && st' == st.(queue := st.queue + [w], pcs := st.pcs[w.id := Waiting], arrivals := st.arrivals + [w])
  }

  /** A waiting thread finds itself at the front. */
  ghost predicate Lead(st: State, st': State, id: nat) {
    Front(st, id) && st.pcs[id].Waiting? && id !in st.done
    && st' == st.(pcs := st.pcs[id := Leading])
  }

  /** No room could be made; or there is no batch to commit. */
  ghost predicate LeadNothing(st: State, st': State, id: nat, ok: bool) {
    Front(st, id) && st.pcs[id].Leading? && (ok ==> !st.bgError && st.queue[0].ops.None?)
    && st' == st.(pcs := st.pcs[id := Finishing(Group(1, st.last + 1, [], false), false, ok, false)])
  }

  ghost predicate Build(byteSize: seq<Op> -> nat, st: State, st': State, id: nat, g: Group) {
    Front(st, id) && st.pcs[id].Leading? && !st.bgError
    && IsGroup(byteSize, st.queue, g.count, g.ops) && g.first == st.last + 1 && st.last + |g.ops| < MAX_SEQUENCE
    && (!g.merged ==> g.ops == st.queue[0].ops.value)
    && st' == st.(pcs := st.pcs[id := Logging(g)], tmp := if g.merged then g.ops else st.tmp)
  }

  ghost predicate AddRecord(st: State, st': State, id: nat, ok: bool) {
    Front(st, id) && st.pcs[id].Logging?
    && var g := st.pcs[id].g;
    if ok then
      st' == st.(log := st.log + [Record(g.first, g.ops)],
                 pcs := st.pcs[id := if st.queue[0].sync then Syncing(g) else Inserting(g, 0)])
    else st' == st.(pcs := st.pcs[id := Finishing(g, false, false, false)])
  }

  ghost predicate Sync(st: State, st': State, id: nat, ok: bool) {
    Front(st, id) && st.pcs[id].Syncing?
    && var g := st.pcs[id].g;
    if ok then st' == st.(synced := |st.log|, pcs := st.pcs[id := Inserting(g, 0)])
    else st' == st.(pcs := st.pcs[id := Finishing(g, true, false, true)])
  }

  /** One entry of the group enters the memtable. */
  ghost predicate Insert(st: State, st': State, id: nat) {
    Front(st, id) && st.pcs[id].Inserting?
    && var g, n := st.pcs[id].g, st.pcs[id].n;
    g.first + n <= MAX_SEQUENCE && n < |g.ops|
    && st' == st.(mem := st.mem + {EntryOf(g.ops[n], g.first + n)}, pcs := st.pcs[id := Inserting(g, n + 1)])
  }

  ghost predicate Inserted(st: State, st': State, id: nat) {
    Front(st, id) && st.pcs[id].Inserting? && st.pcs[id].n == |st.pcs[id].g.ops|
    && st' == st.(pcs := st.pcs[id := Finishing(st.pcs[id].g, true, true, false)])
  }

  /** The answers that a leader leaves for the writers behind it. */
  ghost predicate Notified(done: map<nat, bool>, done': map<nat, bool>, others: seq<Writer>, ok: bool) {
    forall id :: if exists w :: w in others && w.id == id then id in done' && done'[id] == ok
                 else (id in done' <==> id in done) && (id in done ==> done'[id] == done[id])
  }

  ghost predicate Finish(st: State, st': State, id: nat) {
    Front(st, id) && st.pcs[id].Finishing?
    && var pc := st.pcs[id];
    var g := pc.g;
    1 <= g.count <= |st.queue|
    && Notified(st.done, st'.done, st.queue[1..g.count], pc.ok)
    && st' == st.(queue := st.queue[g.count..], pcs := st.pcs[id := Returned(pc.ok)], done := st'.done,
                  tmp := if g.merged then [] else st.tmp, last := st.last + |g.ops|, bgError := st.bgError || pc.syncError,
                  served := st.served + [Served(st.queue[..g.count], g.first, g.ops, pc.logged, pc.ok)])
  }

  /** A thread that was served wakes up. */
  ghost predicate Wake(st: State, st': State, id: nat) {
    id in st.pcs && st.pcs[id].Waiting? && id in st.done
    && st' == st.(pcs := st.pcs[id := Returned(st.done[id])])
  }

  datatype Step =
    | EnqueueStep(w: Writer)
    | LeadStep(id: nat)
    | NothingStep(id: nat, ok: bool)
    | BuildStep(id: nat, g: Group)
    | AddRecordStep(id: nat, ok: bool)
    | SyncStep(id: nat, ok: bool)
    | InsertStep(id: nat)
    | InsertedStep(id: nat)
    | FinishStep(id: nat)
    | WakeStep(id: nat)

  ghost predicate Next(byteSize: seq<Op> -> nat, st: State, step: Step, st': State) {
    match step
    case EnqueueStep(w) => Enqueue(st, st', w)
    case LeadStep(id) => Lead(st, st', id)
    case NothingStep(id, ok) => LeadNothing(st, st', id, ok)
    case BuildStep(id, g) => Build(byteSize, st, st', id, g)
    case AddRecordStep(id, ok) => AddRecord(st, st', id, ok)
    case SyncStep(id, ok) => Sync(st, st', id, ok)
    case InsertStep(id) => Insert(st, st', id)
    case InsertedStep(id) => Inserted(st, st', id)
    case FinishStep(id) => Finish(st, st', id)
    case WakeStep(id) => Wake(st, st', id)
  }

  ghost predicate Init(st: State) {
    st.queue == [] && st.pcs == map[] && st.done == map[] && st.tmp == [] && st.log == [] && st.synced == 0
    && st.arrivals == [] && st.served == [] && st.mem == st.base && st.last == st.start < MAX_SEQUENCE
    && forall e :: e in st.base ==> e.k.sequence <= st.start
  }

  // ------------------------------------------------- what has been committed

  ghost function Writers(served: seq<Served>): seq<Writer> {
    if served == [] then [] else Writers(served[..|served| - 1]) + served[|served| - 1].writers
  }

  ghost function LogOf(served: seq<Served>): seq<Record> {
    if served == [] then []
    else
      var s := served[|served| - 1];
      LogOf(served[..|served| - 1]) + if s.logged then [Record(s.first, s.ops)] else []
  }

  ghost function LastOf(start: nat, served: seq<Served>): nat {
    if served == [] then start else LastOf(start, served[..|served| - 1]) + |served[|served| - 1].ops|
  }

  ghost function BatchOf(s: Served): set<Entry> {
    if s.first + |s.ops| <= MAX_SEQUENCE then Batch(s.ops, s.first) else {}
  }

  ghost function MemOf(base: set<Entry>, served: seq<Served>): set<Entry> {
    if served == [] then base
    else
      var s := served[|served| - 1];
      MemOf(base, served[..|served| - 1]) + if s.ok then BatchOf(s) else {}
  }

  // -------------------------------------------------------------- invariant

  ghost predicate Distinct(writers: seq<Writer>) {
    forall i, j :: 0 <= i < j < |writers| ==> writers[i].id != writers[j].id
  }

  /** Every writer that ever arrived is either served or still queued, in order. */
  ghost predicate QueueOk(st: State) {
    st.arrivals == Writers(st.served) + st.queue && Distinct(st.arrivals)
    && (forall w :: w in st.arrivals ==> w.id in st.pcs)
    && forall id :: id in st.pcs ==> exists w :: w in st.arrivals && w.id == id
  }

  /** Only the thread at the front of the queue does anything, and nobody in the queue
      has an answer. */
  ghost predicate Exclusive(st: State) {
    (forall id :: id in st.pcs && Active(st.pcs[id]) ==> Front(st, id))
    && forall w :: w in st.queue ==> w.id in st.pcs && !st.pcs[w.id].Returned? && w.id !in st.done
  }

  ghost predicate Answered(st: State, w: Writer, ok: bool) {
    w.id in st.pcs
    && (st.pcs[w.id] == Returned(ok) || (st.pcs[w.id].Waiting? && w.id in st.done && st.done[w.id] == ok))
  }

  ghost predicate DoneOk(st: State) {
    forall id :: id in st.done ==> id in st.pcs
  }

  ghost predicate AnswersOk(st: State) {
    forall s, w :: s in st.served && w in s.writers ==> Answered(st, w, s.ok)
  }

  /** Groups: consecutive sequence numbers, all the operations of their writers, and no
      sync writer behind a leader that does not sync. */
  ghost predicate ServedOk(start: nat, served: seq<Served>, i: nat)
    requires i < |served|
  {
    var s := served[i];
    s.writers != [] && s.first == LastOf(start, served[..i]) + 1 && s.first + |s.ops| <= MAX_SEQUENCE
    && (s.ok ==> s.ops == Merged(s.writers) && (if s.writers[0].ops.Some? then s.logged else |s.writers| == 1))
    && (!s.writers[0].sync ==> forall w :: w in s.writers ==> !w.sync)
  }

  ghost predicate HistoryOk(st: State) {
    st.last == LastOf(st.start, st.served) < MAX_SEQUENCE
    && (forall e :: e in st.base ==> e.k.sequence <= st.start)
    && forall i :: 0 <= i < |st.served| ==> ServedOk(st.start, st.served, i)
  }

  ghost predicate Durable(s: Served) {
    s.writers != [] && s.writers[0].sync
  }

  /** A record that a sync leader reported as written is synced. */
  ghost predicate SyncedOk(st: State) {
    st.synced <= |st.log|
    && forall i :: 0 <= i < |st.served| && st.served[i].ok && st.served[i].logged && Durable(st.served[i]) ==>
         |LogOf(st.served[..i + 1])| <= st.synced
  }

  ghost predicate GroupOk(st: State, g: Group) {
    1 <= g.count <= |st.queue| && g.first == st.last + 1
    && g.first + |g.ops| <= MAX_SEQUENCE
    && st.queue[0].ops.Some? && g.ops == Merged(st.queue[..g.count])
    && (!st.queue[0].sync ==> forall i :: 0 <= i < g.count ==> !st.queue[i].sync)
    && st.tmp == if g.merged then g.ops else []
  }

  ghost predicate FinishOk(st: State, pc: PC)
    requires pc.Finishing?
  {
    var g := pc.g;
    if GroupOk(st, g) then
      (pc.ok ==> pc.logged)
    else
      g == Group(1, st.last + 1, [], false) && st.queue != [] && st.tmp == [] && !pc.logged
      && (pc.ok ==> st.queue[0].ops.None?)
  }

  /** How far the log and the memtable have got with the group in progress. */
  ghost predicate Progress(st: State, pc: PC) {
    var log, mem := LogOf(st.served), MemOf(st.base, st.served);
    match pc
    case Waiting => st.log == log && st.mem == mem && st.tmp == []
    case Leading => st.log == log && st.mem == mem && st.tmp == []
    case Logging(g) => GroupOk(st, g) && st.log == log && st.mem == mem
    case Syncing(g) => GroupOk(st, g) && st.log == log + [Record(g.first, g.ops)] && st.mem == mem
    case Inserting(g, n) =>
      GroupOk(st, g) && n <= |g.ops| && st.log == log + [Record(g.first, g.ops)]
      && st.mem == mem + Batch(g.ops[..n], g.first) && (st.queue[0].sync ==> st.synced == |st.log|)
    case Finishing(g, logged, ok, syncError) =>
      FinishOk(st, pc) && st.log == log + (if logged then [Record(g.first, g.ops)] else [])
      && st.mem == (if ok && g.first + |g.ops| <= MAX_SEQUENCE then mem + Batch(g.ops, g.first) else mem)
      && (ok && logged && st.queue[0].sync ==> st.synced == |st.log|)
    case Returned(_) => false
  }

  ghost predicate ProgressOk(st: State) {
    if st.queue == [] then Progress(st, Waiting)
    else st.queue[0].id in st.pcs && Progress(st, st.pcs[st.queue[0].id])
  }

  ghost predicate Inv(st: State) {
    QueueOk(st) && Exclusive(st) && DoneOk(st) && AnswersOk(st) && HistoryOk(st) && SyncedOk(st) && ProgressOk(st)
  }

  lemma InitHolds(st: State)
    requires Init(st)
    ensures Inv(st)
  {
  }

  // ------------------------------------------------------ steps keep it

  /** A step of the front thread that changes neither queue nor history. */
  ghost predicate SameQueue(st: State, st': State, id: nat, pc: PC) {
    Front(st, id) && !pc.Returned? && st'.pcs == st.pcs[id := pc] && st'.done == st.done
    && st'.queue == st.queue && st'.last == st.last && st'.start == st.start && st'.base == st.base
    && st'.arrivals == st.arrivals && st'.served == st.served
  }

  lemma SameQueueKeeps(st: State, st': State, id: nat, pc: PC)
    requires QueueOk(st) && Exclusive(st) && DoneOk(st) && AnswersOk(st) && HistoryOk(st)
    requires SameQueue(st, st', id, pc)
    ensures QueueOk(st') && Exclusive(st') && DoneOk(st') && AnswersOk(st') && HistoryOk(st')
  {
    SameQueueExclusive(st, st', id, pc);
    SameQueueAnswers(st, st', id, pc);
    SameHistory(st, st');
  }

  lemma SameQueueExclusive(st: State, st': State, id: nat, pc: PC)
    requires QueueOk(st) && Exclusive(st) && DoneOk(st) && SameQueue(st, st', id, pc)
    ensures QueueOk(st') && Exclusive(st') && DoneOk(st')
  {
    forall x | x in st'.pcs && Active(st'.pcs[x])
      ensures Front(st', x)
    {
      assert x == id || Front(st, x);
    }
  }

  lemma SameQueueAnswers(st: State, st': State, id: nat, pc: PC)
    requires Exclusive(st) && AnswersOk(st) && SameQueue(st, st', id, pc)
    ensures AnswersOk(st')
  {
    assert st.queue[0] in st.queue;
    forall s, w | s in st'.served && w in s.writers
      ensures Answered(st', w, s.ok)
    {
      assert Answered(st, w, s.ok);
    }
  }

  lemma SameHistory(st: State, st': State)
    requires HistoryOk(st)
    requires st'.last == st.last && st'.start == st.start && st'.base == st.base && st'.served == st.served
    ensures HistoryOk(st')
  {
  }

  ghost predicate KeepsProgress(st: State, st': State, id: nat) {
    Front(st, id) && id in st'.pcs && SameQueue(st, st', id, st'.pcs[id]) && SyncedOk(st') && ProgressOk(st')
  }

  lemma LeadKeeps(byteSize: seq<Op> -> nat, st: State, step: Step, st': State)
    requires SyncedOk(st) && ProgressOk(st) && st.last < MAX_SEQUENCE && Next(byteSize, st, step, st')
    requires step.LeadStep? || step.NothingStep? || step.BuildStep?
    ensures KeepsProgress(st, st', step.id)
  {
    assert Batch([], st.last + 1) == {};
  }

  lemma LogKeeps(st: State, st': State, id: nat, ok: bool)
    requires SyncedOk(st) && ProgressOk(st) && AddRecord(st, st', id, ok)
    ensures KeepsProgress(st, st', id)
  {
    var g := st.pcs[id].g;
    assert g.ops[..0] == [] && Batch([], g.first) == {};
  }

  lemma SyncKeeps(st: State, st': State, id: nat, ok: bool)
    requires SyncedOk(st) && ProgressOk(st) && Sync(st, st', id, ok)
    ensures KeepsProgress(st, st', id)
  {
    var g := st.pcs[id].g;
    assert g.ops[..0] == [] && Batch([], g.first) == {};
  }

  lemma InsertKeeps(st: State, st': State, id: nat)
    requires SyncedOk(st) && ProgressOk(st) && Insert(st, st', id)
    ensures KeepsProgress(st, st', id)
  {
    var g, n := st.pcs[id].g, st.pcs[id].n;
    BatchGrows(g.ops[..n + 1], g.first);
    assert g.ops[..n + 1][..n] == g.ops[..n];
  }

  lemma InsertedKeeps(st: State, st': State, id: nat)
    requires SyncedOk(st) && ProgressOk(st) && Inserted(st, st', id)
    ensures KeepsProgress(st, st', id)
  {
    var g := st.pcs[id].g;
    assert g.ops[..|g.ops|] == g.ops;
  }

  lemma ProgressStepKeeps(byteSize: seq<Op> -> nat, st: State, step: Step, st': State)
    requires SyncedOk(st) && ProgressOk(st) && st.last < MAX_SEQUENCE && Next(byteSize, st, step, st')
    requires !step.EnqueueStep? && !step.FinishStep? && !step.WakeStep?
    ensures KeepsProgress(st, st', step.id)
  {
    if step.AddRecordStep? {
      LogKeeps(st, st', step.id, step.ok);
    } else if step.SyncStep? {
      SyncKeeps(st, st', step.id, step.ok);
    } else if step.InsertStep? {
      InsertKeeps(st, st', step.id);
    } else if step.InsertedStep? {
      InsertedKeeps(st, st', step.id);
    } else {
      LeadKeeps(byteSize, st, step, st');
    }
  }

  lemma FrontStepKeeps(byteSize: seq<Op> -> nat, st: State, step: Step, st': State)
    requires Inv(st) && Next(byteSize, st, step, st')
    requires !step.EnqueueStep? && !step.FinishStep? && !step.WakeStep?
    ensures Inv(st')
  {
    ProgressStepKeeps(byteSize, st, step, st');
    SameQueueKeeps(st, st', step.id, st'.pcs[step.id]);
  }

  lemma EnqueueKeeps(st: State, st': State, w: Writer)
    requires Inv(st) && Enqueue(st, st', w)
    ensures Inv(st')
  {
    EnqueueKeepsQueue(st, st', w);
    EnqueueKeepsAnswers(st, st', w);
    EnqueueProgress(st, st', w);
  }

  lemma EnqueueKeepsQueue(st: State, st': State, w: Writer)
    requires QueueOk(st) && Enqueue(st, st', w)
    ensures QueueOk(st')
  {
    assert forall x :: x in st'.arrivals <==> x in st.arrivals || x == w;
    forall id | id in st'.pcs
      ensures exists x :: x in st'.arrivals && x.id == id
    {
      if id in st.pcs {
        var x :| x in st.arrivals && x.id == id;
        assert x in st'.arrivals;
      } else {
        assert w in st'.arrivals;
      }
    }
  }

  lemma EnqueueKeepsAnswers(st: State, st': State, w: Writer)
    requires QueueOk(st) && Exclusive(st) && AnswersOk(st) && Enqueue(st, st', w) && DoneOk(st)
    ensures Exclusive(st') && AnswersOk(st') && DoneOk(st')
  {
    assert forall x :: x in st'.queue <==> x in st.queue || x == w;
    forall s, x | s in st'.served && x in s.writers
      ensures Answered(st', x, s.ok)
    {
      assert Answered(st, x, s.ok);
    }
    forall id | id in st'.pcs && Active(st'.pcs[id])
      ensures Front(st', id)
    {
      assert Front(st, id);
    }
  }

  lemma EnqueueProgress(st: State, st': State, w: Writer)
    requires SyncedOk(st) && ProgressOk(st) && Enqueue(st, st', w)
    ensures SyncedOk(st') && ProgressOk(st')
  {
    if st.queue != [] {
      var pc := st.pcs[st.queue[0].id];
      if pc.Logging? || pc.Syncing? || pc.Inserting? {
        GroupStays(st, st', pc.g, w);
      } else if pc.Finishing? {
        FinishStays(st, st', pc, w);
      }
    }
  }

  lemma GroupStays(st: State, st': State, g: Group, w: Writer)
    requires st.queue != [] && Enqueue(st, st', w)
    requires g.count <= |st.queue|
    ensures GroupOk(st, g) <==> GroupOk(st', g)
  {
    assert st'.queue[..g.count] == st.queue[..g.count];
  }

  lemma FinishStays(st: State, st': State, pc: PC, w: Writer)
    requires st.queue != [] && Enqueue(st, st', w) && pc.Finishing? && FinishOk(st, pc)
    ensures FinishOk(st', pc)
  {
    GroupStays(st, st', pc.g, w);
  }

  lemma WakeKeeps(st: State, st': State, id: nat)
    requires Inv(st) && Wake(st, st', id)
    ensures Inv(st')
  {
    WakeKeepsQueue(st, st', id);
    WakeKeepsAnswers(st, st', id);
    SameHistory(st, st');
  }

  lemma WakeKeepsAnswers(st: State, st': State, id: nat)
    requires DoneOk(st) && AnswersOk(st) && Wake(st, st', id)
    ensures DoneOk(st') && AnswersOk(st')
  {
    forall s, x | s in st'.served && x in s.writers
      ensures Answered(st', x, s.ok)
    {
      assert Answered(st, x, s.ok);
    }
  }

  lemma WakeKeepsQueue(st: State, st': State, id: nat)
    requires QueueOk(st) && Exclusive(st) && SyncedOk(st) && ProgressOk(st) && Wake(st, st', id)
    ensures QueueOk(st') && Exclusive(st') && SyncedOk(st') && ProgressOk(st')
  {
    forall x | x in st.queue
      ensures x.id != id
    {
    }
    forall x | x in st'.pcs && Active(st'.pcs[x])
      ensures Front(st', x)
    {
      assert Front(st, x);
    }
    WakeKeepsProgress(st, st', id);
  }

  lemma WakeKeepsProgress(st: State, st': State, id: nat)
    requires ProgressOk(st) && Wake(st, st', id) && forall x :: x in st.queue ==> x.id != id
    ensures ProgressOk(st')
  {
    assert st.queue != [] ==> st.queue[0] in st.queue;
  }

  /** The queue holds each writer once, and none that has been served. */
  lemma QueueIsDistinct(st: State)
    requires QueueOk(st)
    ensures Distinct(st.queue)
    ensures forall s, w, x :: s in st.served && w in s.writers && x in st.queue ==> w.id != x.id
  {
    SuffixIsDistinct(Writers(st.served), st.queue);
    forall s, w, x | s in st.served && w in s.writers && x in st.queue
      ensures w.id != x.id
    {
      ServedArrived(st.served, s, w);
      PartsDiffer(Writers(st.served), st.queue, w, x);
    }
  }

  lemma SuffixIsDistinct(a: seq<Writer>, b: seq<Writer>)
    requires Distinct(a + b)
    ensures Distinct(b)
  {
    assert forall i :: 0 <= i < |b| ==> b[i] == (a + b)[|a| + i];
  }

  lemma PartsDiffer(a: seq<Writer>, b: seq<Writer>, w: Writer, x: Writer)
    requires Distinct(a + b) && w in a && x in b
    ensures w.id != x.id
  {
    var i :| 0 <= i < |a| && a[i] == w;
    var j :| 0 <= j < |b| && b[j] == x;
    assert (a + b)[i] == w && (a + b)[|a| + j] == x;
  }

  lemma {:induction false} ServedArrived(served: seq<Served>, s: Served, w: Writer)
    requires s in served && w in s.writers
    ensures w in Writers(served)
  {
    var n := |served| - 1;
    if s != served[n] {
      assert s in served[..n];
      ServedArrived(served[..n], s, w);
    }
  }

  lemma FinishKeepsQueue(st: State, st': State, id: nat)
    requires QueueOk(st) && Finish(st, st', id)
    ensures QueueOk(st')
  {
    var n := st.pcs[id].g.count;
    assert st'.served[..|st.served|] == st.served;
    assert st.queue == st.queue[..n] + st.queue[n..];
    forall x | x in st'.pcs
      ensures exists w :: w in st'.arrivals && w.id == x
    {
      assert x in st.pcs;
      var w :| w in st.arrivals && w.id == x;
      assert w in st'.arrivals;
    }
  }

  lemma FinishKeepsExclusive(st: State, st': State, id: nat)
    requires QueueOk(st) && Exclusive(st) && Finish(st, st', id)
    ensures Exclusive(st')
    ensures st'.queue != [] ==> st'.queue[0].id in st'.pcs && st'.pcs[st'.queue[0].id].Waiting?
  {
    QueueIsDistinct(st);
    StillWaiting(st, st', id);
    forall x | x in st'.pcs
      ensures !Active(st'.pcs[x])
    {
      assert x != id ==> !Front(st, x);
    }
  }

  lemma StillWaiting(st: State, st': State, id: nat)
    requires Distinct(st.queue) && Exclusive(st) && Finish(st, st', id)
    ensures forall w :: w in st'.queue ==> w.id in st'.pcs && st'.pcs[w.id].Waiting? && w.id !in st'.done
  {
    var n := st.pcs[id].g.count;
    forall w | w in st'.queue
      ensures w.id in st'.pcs && st'.pcs[w.id].Waiting? && w.id !in st'.done
    {
      var j :| 0 <= j < |st'.queue| && st'.queue[j] == w;
      assert st.queue[n + j] == w;
      assert !Front(st, w.id);
      assert w in st.queue;
      forall x | x in st.queue[1..n]
        ensures x.id != w.id
      {
        var i :| 0 <= i < n - 1 && st.queue[1..n][i] == x;
        assert st.queue[1 + i] == x;
      }
    }
  }

  lemma FinishKeepsAnswers(st: State, st': State, id: nat)
    requires QueueOk(st) && Exclusive(st) && DoneOk(st) && AnswersOk(st) && Finish(st, st', id)
    ensures DoneOk(st') && AnswersOk(st')
  {
    var n := st.pcs[id].g.count;
    QueueIsDistinct(st);
    assert forall x :: x in st.queue[1..n] ==> x in st.queue;
    NewlyAnswered(st, st', id);
    forall s, w | s in st'.served && w in s.writers
      ensures Answered(st', w, s.ok)
    {
      if s in st.served {
        StillAnswered(st, st', id, s, w);
      } else {
        assert s == st'.served[|st.served|];
      }
    }
  }

  lemma StillAnswered(st: State, st': State, id: nat, s: Served, w: Writer)
    requires Finish(st, st', id) && Answered(st, w, s.ok)
    requires forall x :: x in st.queue ==> w.id != x.id
    ensures Answered(st', w, s.ok)
  {
    assert st.queue[0] in st.queue;
    assert forall x :: x in st.queue[1..st.pcs[id].g.count] ==> x in st.queue;
  }

  lemma NewlyAnswered(st: State, st': State, id: nat)
    requires Distinct(st.queue) && Exclusive(st) && Finish(st, st', id)
    ensures forall w :: w in st.queue[..st.pcs[id].g.count] ==> Answered(st', w, st.pcs[id].ok)
  {
    var n := st.pcs[id].g.count;
    forall w | w in st.queue[..n]
      ensures Answered(st', w, st.pcs[id].ok)
    {
      var j :| 0 <= j < n && st.queue[j] == w;
      assert w in st.queue;
      if j > 0 {
        assert st.queue[1..n][j - 1] == w;
        assert !Front(st, w.id);
      }
    }
  }

  lemma ServedGrows(start: nat, served: seq<Served>, s: Served)
    requires forall i :: 0 <= i < |served| ==> ServedOk(start, served, i)
    requires s.writers != [] && s.first == LastOf(start, served) + 1 && s.first + |s.ops| <= MAX_SEQUENCE
    requires s.ok ==> s.ops == Merged(s.writers) && (if s.writers[0].ops.Some? then s.logged else |s.writers| == 1)
    requires !s.writers[0].sync ==> forall w :: w in s.writers ==> !w.sync
    ensures forall i :: 0 <= i < |served| + 1 ==> ServedOk(start, served + [s], i)
  {
    forall i | 0 <= i < |served| + 1
      ensures ServedOk(start, served + [s], i)
    {
      if i < |served| {
        assert ServedOk(start, served, i);
        assert (served + [s])[..i] == served[..i];
      } else {
        assert (served + [s])[..i] == served;
      }
    }
  }

  lemma FinishKeepsHistory(st: State, st': State, id: nat)
    requires HistoryOk(st) && ProgressOk(st) && Finish(st, st', id)
    ensures HistoryOk(st')
  {
    var s := st'.served[|st.served|];
    FinishedGroup(st, st.pcs[id]);
    HistoryGrowsBy(st, st', s);
  }

  lemma HistoryGrowsBy(st: State, st': State, s: Served)
    requires HistoryOk(st) && st'.served == st.served + [s] && st'.last == st.last + |s.ops|
    requires st'.start == st.start && st'.base == st.base
    requires s.writers != [] && s.first == st.last + 1 && s.first + |s.ops| <= MAX_SEQUENCE
    requires s.ok ==> s.ops == Merged(s.writers) && (if s.writers[0].ops.Some? then s.logged else |s.writers| == 1)
    requires !s.writers[0].sync ==> forall w :: w in s.writers ==> !w.sync
    ensures HistoryOk(st')
  {
    ServedGrows(st.start, st.served, s);
    LastOfGrows(st.start, st.served, s);
  }

  lemma LastOfGrows(start: nat, served: seq<Served>, s: Served)
    ensures LastOf(start, served + [s]) == LastOf(start, served) + |s.ops|
  {
    assert (served + [s])[..|served|] == served;
  }

  lemma FinishKeepsSynced(st: State, st': State, id: nat)
    requires SyncedOk(st) && ProgressOk(st) && Finish(st, st', id)
    ensures SyncedOk(st')
  {
    var k := |st.served|;
    assert st'.served[..k] == st.served && st'.served[..k + 1] == st'.served;
    forall i | 0 <= i < k + 1 && st'.served[i].ok && st'.served[i].logged && Durable(st'.served[i])
      ensures |LogOf(st'.served[..i + 1])| <= st'.synced
    {
      if i < k {
        assert st'.served[..i + 1] == st.served[..i + 1];
        assert st'.served[i] == st.served[i];
      }
    }
  }

  lemma FinishKeepsProgress(st: State, st': State, id: nat)
    requires HistoryOk(st) && ProgressOk(st) && Finish(st, st', id)
    requires st'.queue != [] ==> st'.queue[0].id in st'.pcs && st'.pcs[st'.queue[0].id].Waiting?
    ensures ProgressOk(st')
  {
    var g := st.pcs[id].g;
    assert st'.served[..|st.served|] == st.served;
    FinishedGroup(st, st.pcs[id]);
    assert BatchOf(st'.served[|st.served|]) == Batch(g.ops, g.first);
  }

  /** What a finishing group is, whichever way it came about. */
  lemma FinishedGroup(st: State, pc: PC)
    requires pc.Finishing? && FinishOk(st, pc) && HistoryOk(st)
    ensures var g := pc.g;
            1 <= g.count <= |st.queue| && g.first == st.last + 1 && g.first + |g.ops| <= MAX_SEQUENCE
            && (pc.ok ==> g.ops == Merged(st.queue[..g.count]) && (if st.queue[0].ops.Some? then pc.logged else g.count == 1))
            && (!st.queue[0].sync ==> forall w :: w in st.queue[..g.count] ==> !w.sync)
            && st.tmp == if g.merged then g.ops else []
  {
    MergedStep(st.queue, 0);
  }

  lemma FinishKeeps(st: State, st': State, id: nat)
    requires Inv(st) && Finish(st, st', id)
    ensures Inv(st')
  {
    FinishKeepsQueue(st, st', id);
    FinishKeepsExclusive(st, st', id);
    FinishKeepsAnswers(st, st', id);
    FinishKeepsHistory(st, st', id);
    FinishKeepsSynced(st, st', id);
    FinishKeepsProgress(st, st', id);
  }

  lemma StepKeeps(byteSize: seq<Op> -> nat, st: State, step: Step, st': State)
    requires Inv(st) && Next(byteSize, st, step, st')
    ensures Inv(st')
  {
    match step
    case EnqueueStep(w) => EnqueueKeeps(st, st', w);
    case FinishStep(id) => FinishKeeps(st, st', id);
    case WakeStep(id) => WakeKeeps(st, st', id);
    case _ => FrontStepKeeps(byteSize, st, step, st');
  }

  // ------------------------------------------------------------ whole runs

  ghost predicate IsRun(byteSize: seq<Op> -> nat, run: seq<State>, steps: seq<Step>) {
    |run| == |steps| + 1 && Init(run[0])
    && forall i :: 0 <= i < |steps| ==> Next(byteSize, run[i], steps[i], run[i + 1])
  }

  lemma {:induction false} RunKeepsInvariant(byteSize: seq<Op> -> nat, run: seq<State>, steps: seq<Step>, i: nat)
    requires IsRun(byteSize, run, steps) && i < |run|
    ensures Inv(run[i])
  {
    if i == 0 {
      InitHolds(run[0]);
    } else {
      RunKeepsInvariant(byteSize, run, steps, i - 1);
      StepKeeps(byteSize, run[i - 1], steps[i - 1], run[i]);
    }
  }

  /** Nothing that was recorded is ever taken back. */
  ghost predicate Extends(st: State, st': State) {
    st.served <= st'.served && st.arrivals <= st'.arrivals && st.start == st'.start && st.base == st'.base
  }

  lemma StepExtends(byteSize: seq<Op> -> nat, st: State, step: Step, st': State)
    requires Next(byteSize, st, step, st')
    ensures Extends(st, st')
  {
  }

  lemma ExtendsIsTransitive(a: State, b: State, c: State)
    requires Extends(a, b) && Extends(b, c)
    ensures Extends(a, c)
  {
  }

  ghost predicate ExtendsAt(run: seq<State>, i: nat) {
    i + 1 < |run| ==> Extends(run[i], run[i + 1])
  }

  lemma {:induction false} ExtendsAlong(run: seq<State>, i: nat, j: nat)
    requires i <= j < |run| && forall k: nat :: ExtendsAt(run, k)
    ensures Extends(run[i], run[j])
    decreases j
  {
    if i < j {
      ExtendsAlong(run, i, j - 1);
      assert ExtendsAt(run, j - 1);
      ExtendsIsTransitive(run[i], run[j - 1], run[j]);
    }
  }

  lemma HistoryGrows(byteSize: seq<Op> -> nat, run: seq<State>, steps: seq<Step>, i: nat, j: nat)
    requires IsRun(byteSize, run, steps) && i <= j < |run|
    ensures Extends(run[i], run[j])
  {
    forall k: nat
      ensures ExtendsAt(run, k)
    {
      if k + 1 < |run| {
        StepExtends(byteSize, run[k], steps[k], run[k + 1]);
      }
    }
    ExtendsAlong(run, i, j);
  }

  /** What a reader at sequence number `s` sees of a memtable. */
  ghost function Visible(mem: set<Entry>, s: nat): set<Entry> {
    set e | e in mem && e.k.sequence <= s
  }

  lemma {:induction false} CommittedBelow(start: nat, base: set<Entry>, served: seq<Served>)
    requires forall e :: e in base ==> e.k.sequence <= start
    requires forall i :: 0 <= i < |served| ==> ServedOk(start, served, i)
    ensures forall e :: e in MemOf(base, served) ==> e.k.sequence <= LastOf(start, served)
  {
    if served != [] {
      var n := |served| - 1;
      PrefixOk(start, served, n);
      CommittedBelow(start, base, served[..n]);
      assert ServedOk(start, served, n);
      BatchBounds(served[n].ops, served[n].first);
    }
  }

  lemma PrefixOk(start: nat, served: seq<Served>, n: nat)
    requires n <= |served| && forall i :: 0 <= i < |served| ==> ServedOk(start, served, i)
    ensures forall i :: 0 <= i < n ==> ServedOk(start, served[..n], i)
  {
    forall i | 0 <= i < n
      ensures ServedOk(start, served[..n], i)
    {
      assert ServedOk(start, served, i);
      assert served[..n][..i] == served[..i];
    }
  }

  /** Later groups only add entries above every earlier snapshot. */
  lemma {:induction false} CommittedPrefix(start: nat, base: set<Entry>, served: seq<Served>, k: nat)
    requires forall e :: e in base ==> e.k.sequence <= start
    requires forall i :: 0 <= i < |served| ==> ServedOk(start, served, i)
    requires k <= |served|
    ensures Visible(MemOf(base, served), LastOf(start, served[..k])) == MemOf(base, served[..k])
    ensures LastOf(start, served[..k]) <= LastOf(start, served)
  {
    if k == |served| {
      assert served[..k] == served;
      CommittedBelow(start, base, served);
    } else {
      var n := |served| - 1;
      PrefixOk(start, served, n);
      CommittedPrefix(start, base, served[..n], k);
      assert served[..n][..k] == served[..k];
      assert ServedOk(start, served, n);
      BatchBounds(served[n].ops, served[n].first);
    }
  }

  /** In every state a reader sees exactly the groups committed before its snapshot, even
      while a leader is halfway through inserting the next one. */
  lemma VisibleIsCommitted(st: State, k: nat)
    requires Inv(st) && k <= |st.served|
    ensures Visible(st.mem, LastOf(st.start, st.served[..k])) == MemOf(st.base, st.served[..k])
  {
    CommittedPrefix(st.start, st.base, st.served, k);
    Pending(st);
  }

  lemma Pending(st: State)
    requires HistoryOk(st) && ProgressOk(st)
    ensures MemOf(st.base, st.served) <= st.mem
    ensures forall e :: e in st.mem && e !in MemOf(st.base, st.served) ==> e.k.sequence > st.last
  {
    if st.queue != [] {
      var pc := st.pcs[st.queue[0].id];
      if pc.Inserting? {
        BatchBounds(pc.g.ops[..pc.n], pc.g.first);
      } else if pc.Finishing? {
        FinishedGroup(st, pc);
        BatchBounds(pc.g.ops, pc.g.first);
      }
    }
  }

  /** What a reader saw at the last sequence number of some moment is what it sees there
      ever after: the groups committed by then, each of them whole. */
  lemma SnapshotIsStable(byteSize: seq<Op> -> nat, run: seq<State>, steps: seq<Step>, i: nat, j: nat)
    requires IsRun(byteSize, run, steps) && i <= j < |run|
    ensures Visible(run[j].mem, run[i].last) == MemOf(run[i].base, run[i].served)
  {
    RunKeepsInvariant(byteSize, run, steps, i);
    RunKeepsInvariant(byteSize, run, steps, j);
    HistoryGrows(byteSize, run, steps, i, j);
    assert run[j].served[..|run[i].served|] == run[i].served;
    VisibleIsCommitted(run[j], |run[i].served|);
  }

  lemma {:induction false} BatchVisible(start: nat, base: set<Entry>, served: seq<Served>, i: nat)
    requires i < |served| && served[i].ok
    ensures BatchOf(served[i]) <= MemOf(base, served)
  {
    var n := |served| - 1;
    if i < n {
      BatchVisible(start, base, served[..n], i);
    }
  }

  lemma {:induction false} LaterIsAbove(start: nat, served: seq<Served>, i: nat, k: nat)
    requires forall m :: 0 <= m < |served| ==> ServedOk(start, served, m)
    requires i <= k < |served|
    ensures LastOf(start, served[..i]) < served[k].first
    decreases k
  {
    assert ServedOk(start, served, k);
    if i < k {
      LaterIsAbove(start, served, i, k - 1);
      assert ServedOk(start, served, k - 1);
      assert served[..k][..k - 1] == served[..k - 1];
    }
  }

  /** A failed group keeps its sequence numbers to itself. */
  lemma {:induction false} FailedIsInvisible(start: nat, base: set<Entry>, served: seq<Served>, k: nat)
    requires forall e :: e in base ==> e.k.sequence <= start
    requires forall m :: 0 <= m < |served| ==> ServedOk(start, served, m)
    requires k < |served| && !served[k].ok
    ensures BatchOf(served[k]) !! MemOf(base, served)
  {
    var n, s := |served| - 1, served[k];
    PrefixOk(start, served, n);
    assert ServedOk(start, served, k) && ServedOk(start, served, n);
    BatchBounds(s.ops, s.first);
    if k == n {
      CommittedBelow(start, base, served[..n]);
    } else {
      FailedIsInvisible(start, base, served[..n], k);
      BatchBounds(served[n].ops, served[n].first);
      LaterIsAbove(start, served, k + 1, n);
      assert served[..k + 1][..k] == served[..k];
    }
  }

  /** Every successful group is seen as a whole or not at all, and a failed one never, by a
      reader that takes the last sequence number as its snapshot, then and at any later
      moment. */
  lemma AllOrNone(byteSize: seq<Op> -> nat, run: seq<State>, steps: seq<Step>, i: nat, j: nat, k: nat)
    requires IsRun(byteSize, run, steps) && i <= j < |run| && k < |run[j].served|
    ensures var seen, s := Visible(run[j].mem, run[i].last), run[j].served[k];
            if k < |run[i].served| && s.ok then BatchOf(s) <= seen else BatchOf(s) !! seen
  {
    SnapshotIsStable(byteSize, run, steps, i, j);
    RunKeepsInvariant(byteSize, run, steps, i);
    RunKeepsInvariant(byteSize, run, steps, j);
    HistoryGrows(byteSize, run, steps, i, j);
    var s := run[j].served[k];
    if k < |run[i].served| {
      if s.ok {
        BatchVisible(run[i].start, run[i].base, run[i].served, k);
      } else {
        FailedIsInvisible(run[i].start, run[i].base, run[i].served, k);
      }
    } else {
      assert run[j].served[..|run[i].served|] == run[i].served;
      LaterIsAbove(run[j].start, run[j].served, |run[i].served|, k);
      assert ServedOk(run[j].start, run[j].served, k);
      BatchBounds(s.ops, s.first);
    }
  }

  /** Where a writer's batch lies in its group. */
  ghost predicate PartOf(s: Served, w: Writer, before: seq<Op>, after: seq<Op>) {
    w.ops.Some? && s.ops == before + w.ops.value + after
  }

  lemma FindPart(s: Served, w: Writer) returns (before: seq<Op>, after: seq<Op>)
    requires w in s.writers && w.ops.Some? && s.ops == Merged(s.writers)
    ensures PartOf(s, w, before, after)
  {
    var k :| 0 <= k < |s.writers| && s.writers[k] == w;
    before, after := Merged(s.writers[..k]), Merged(s.writers[k + 1..]);
    assert s.writers == s.writers[..k + 1] + s.writers[k + 1..];
    MergedConcat(s.writers[..k + 1], s.writers[k + 1..]);
    MergedStep(s.writers, k);
  }

  lemma {:induction false} WriterServed(served: seq<Served>, w: Writer) returns (i: nat)
    requires w in Writers(served)
    ensures i < |served| && w in served[i].writers
  {
    var n := |served| - 1;
    if w in served[n].writers {
      i := n;
    } else {
      i := WriterServed(served[..n], w);
    }
  }

  lemma {:induction false} RecordLogged(served: seq<Served>, i: nat)
    requires i < |served| && served[i].logged
    ensures var at := |LogOf(served[..i + 1])|;
            0 < at <= |LogOf(served)| && LogOf(served)[at - 1] == Record(served[i].first, served[i].ops)
  {
    var n := |served| - 1;
    if i < n {
      RecordLogged(served[..n], i);
      assert served[..n][..i + 1] == served[..i + 1];
    } else {
      assert served[..i + 1] == served;
    }
  }

  lemma SuccessIsServed(st: State, w: Writer) returns (i: nat)
    requires QueueOk(st) && Exclusive(st) && AnswersOk(st) && w in st.arrivals && st.pcs[w.id] == Returned(true)
    ensures i < |st.served| && w in st.served[i].writers && st.served[i].ok
  {
    assert w !in st.queue;
    i := WriterServed(st.served, w);
    assert st.served[i] in st.served && Answered(st, w, st.served[i].ok);
  }

  lemma ServedIsCommitted(st: State, i: nat)
    requires Inv(st) && i < |st.served| && st.served[i].ok && st.served[i].logged
    ensures var s, at := st.served[i], |LogOf(st.served[..i + 1])|;
            0 < at <= |st.log| && st.log[at - 1] == Record(s.first, s.ops) && (Durable(s) ==> at <= st.synced)
            && s.first + |s.ops| <= MAX_SEQUENCE && Batch(s.ops, s.first) <= Visible(st.mem, st.last)
  {
    RecordLogged(st.served, i);
    ServedInOrder(st);
    BatchVisible(st.start, st.base, st.served, i);
    assert st.served[..|st.served|] == st.served;
    VisibleIsCommitted(st, |st.served|);
    assert ServedOk(st.start, st.served, i);
  }

  /** A writer that was answered with success has its batch in one record of the log and
      in the memtable, under the sequence numbers of its place in the group; and the
      record is synced if the writer asked for that. */
  lemma SuccessIsCommitted(st: State, w: Writer) returns (i: nat, before: seq<Op>, after: seq<Op>)
    requires Inv(st) && w in st.arrivals && w.ops.Some? && st.pcs[w.id] == Returned(true)
    ensures i < |st.served| && w in st.served[i].writers && PartOf(st.served[i], w, before, after)
    ensures var s, at := st.served[i], |LogOf(st.served[..i + 1])|;
            0 < at <= |st.log| && st.log[at - 1] == Record(s.first, s.ops) && (w.sync ==> at <= st.synced)
            && s.first + |s.ops| <= MAX_SEQUENCE
            && Batch(w.ops.value, s.first + |before|) <= Visible(st.mem, st.last)
  {
    i := SuccessIsServed(st, w);
    var s := st.served[i];
    SuccessIsLogged(st, i, w);
    before, after := FindPart(s, w);
    ServedIsCommitted(st, i);
    PartOfBatch(before, w.ops.value, after, s.first);
  }

  lemma SuccessIsLogged(st: State, i: nat, w: Writer)
    requires HistoryOk(st) && i < |st.served| && st.served[i].ok && w in st.served[i].writers && w.ops.Some?
    ensures var s := st.served[i];
            s.logged && s.ops == Merged(s.writers) && (w.sync ==> Durable(s))
  {
    assert ServedOk(st.start, st.served, i);
  }

  /** The records of the log carry disjoint ranges of sequence numbers, in order. */
  lemma {:induction false} LogIsOrdered(start: nat, served: seq<Served>, i: nat, j: nat)
    requires forall m :: 0 <= m < |served| ==> ServedOk(start, served, m)
    requires i < j < |LogOf(served)|
    ensures var log := LogOf(served);
            start < log[i].first && log[i].first + |log[i].ops| <= log[j].first
    ensures LogOf(served)[j].first + |LogOf(served)[j].ops| <= LastOf(start, served) + 1
  {
    LogWithin(start, served);
    var n := |served| - 1;
    PrefixOk(start, served, n);
    assert ServedOk(start, served, n);
    if j < |LogOf(served[..n])| {
      LogIsOrdered(start, served[..n], i, j);
    } else {
      LogWithin(start, served[..n]);
    }
  }

  lemma {:induction false} LogWithin(start: nat, served: seq<Served>)
    requires forall m :: 0 <= m < |served| ==> ServedOk(start, served, m)
    ensures forall r :: r in LogOf(served) ==> start < r.first && r.first + |r.ops| <= LastOf(start, served) + 1
    ensures start <= LastOf(start, served)
  {
    if served != [] {
      var n := |served| - 1;
      PrefixOk(start, served, n);
      LogWithin(start, served[..n]);
      assert ServedOk(start, served, n);
    }
  }

  /** Writers are served in the order of their arrival, each of them once; and the log
      holds the groups, in order, but for one that may be under way. */
  lemma ServedInOrder(st: State)
    requires Inv(st)
    ensures Writers(st.served) <= st.arrivals && Distinct(st.arrivals)
    ensures st.log == LogOf(st.served) || (|st.log| == |LogOf(st.served)| + 1 && LogOf(st.served) <= st.log)
    ensures forall id, jd :: id in st.pcs && jd in st.pcs && Active(st.pcs[id]) && Active(st.pcs[jd]) ==> id == jd
  {
    if st.queue != [] && st.pcs[st.queue[0].id].Finishing? {
      assert Progress(st, st.pcs[st.queue[0].id]);
    }
    forall id, jd | id in st.pcs && jd in st.pcs && Active(st.pcs[id]) && Active(st.pcs[jd])
      ensures id == jd
    {
      assert Front(st, id) && Front(st, jd);
    }
  }
}
