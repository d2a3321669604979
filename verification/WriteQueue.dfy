/** The writer queue as DBImpl keeps it. Each method is one stretch of the code of
    DBImpl::Write that runs without giving up the mutex, or one effect of the stretch
    that runs without holding it (db/db_impl.cc). */
module WriteQueue {
  import opened Entries
  import Store
  import opened GroupCommit

  class Writers {
    const byteSize: seq<Store.Op> -> nat

    var queue: seq<Writer>
    var pcs: map<nat, PC>
    var done: map<nat, bool>
    /** The shared batch, used when a group has more than one batch. */
    var tmp: seq<Store.Op>
    var last: nat
    var log: seq<Record>
    var synced: nat
    var mem: set<Entry>
    var bgError: bool
    ghost var start: nat
    ghost var base: set<Entry>
    ghost var arrivals: seq<Writer>
    ghost var served: seq<Served>

    ghost function S(): State
      reads this
    {
      State(queue, pcs, done, tmp, last, log, synced, mem, bgError, start, base, arrivals, served)
    }

    constructor (byteSize: seq<Store.Op> -> nat, last: nat, mem: set<Entry>)
      requires last < MAX_SEQUENCE && forall e :: e in mem ==> e.k.sequence <= last
      ensures Init(S()) && Inv(S()) && this.byteSize == byteSize && S().last == last && S().mem == mem
    {
      this.byteSize := byteSize;
      queue, pcs, done, tmp, log, synced, bgError := [], map[], map[], [], [], 0, false;
      this.last, this.mem := last, mem;
      start, base, arrivals, served := last, mem, [], [];
      new;
      InitHolds(S());
    }

    method Enqueue(w: Writer)
      requires Inv(S()) && w.id !in pcs
      modifies this
      ensures Inv(S()) && Next(byteSize, old(S()), EnqueueStep(w), S())
    {
      ghost var st := S();
      queue := queue + [w];
      pcs := pcs[w.id := Waiting];
      arrivals := arrivals + [w];
      StepKeeps(byteSize, st, EnqueueStep(w), S());
    }

    /** The wait loop: a thread that was served returns, one at the front takes the lead. */
    method TryLeave(id: nat) returns (left: bool)
      requires Inv(S()) && id in pcs && pcs[id].Waiting?
      modifies this
      ensures Inv(S())
      ensures left == (old(id in done) || old(Front(S(), id)))
      ensures if old(id in done) then Next(byteSize, old(S()), WakeStep(id), S())
              else if old(Front(S(), id)) then Next(byteSize, old(S()), LeadStep(id), S())
              else S() == old(S())
    {
      ghost var st := S();
      if id in done {
        pcs := pcs[id := Returned(done[id])];
        StepKeeps(byteSize, st, WakeStep(id), S());
        return true;
      }
      if queue != [] && queue[0].id == id {
        pcs := pcs[id := Leading];
        StepKeeps(byteSize, st, LeadStep(id), S());
        return true;
      }
      left := false;
    }

    /** After MakeRoomForWrite: `room` says whether it succeeded. Without room, or without
        a batch, nothing is committed; otherwise a group is built. */
    method BuildBatchGroup(id: nat, room: bool) returns (ghost step: Step)
      requires Inv(S()) && Front(S(), id) && pcs[id].Leading? && (room ==> !bgError)
      requires last + |Merged(queue)| < MAX_SEQUENCE
      modifies this
      ensures Inv(S()) && Next(byteSize, old(S()), step, S())
      ensures if room && old(queue[0].ops.Some?) then step.BuildStep? && step.id == id else step == NothingStep(id, room)
    {
      ghost var st := S();
      if !room || queue[0].ops.None? {
        pcs := pcs[id := Finishing(Group(1, last + 1, [], false), false, room, false)];
        step := NothingStep(id, room);
      } else {
        LeadingIsClean(st, id);
        var g := BuildGroup(id);
        step := BuildStep(id, g);
      }
      StepKeeps(byteSize, st, step, S());
    }

    method BuildGroup(id: nat) returns (g: Group)
      requires Front(S(), id) && pcs[id].Leading? && !bgError && queue[0].ops.Some? && tmp == []
      requires last + |Merged(queue)| < MAX_SEQUENCE
      modifies this
      ensures Build(byteSize, old(S()), S(), id, g)
    {
      var n, ops, merged := Collect(byteSize, queue, tmp);
      MergedPrefix(queue, n);
      g := Group(n, last + 1, ops, merged);
      tmp := if merged then ops else tmp;
      pcs := pcs[id := Logging(g)];
    }

    static lemma LeadingIsClean(st: State, id: nat)
      requires ProgressOk(st) && Front(st, id) && st.pcs[id].Leading?
      ensures st.tmp == []
    {
    }

    static lemma InsertingFits(st: State, id: nat)
      requires ProgressOk(st) && Front(st, id) && st.pcs[id].Inserting?
      ensures var pc := st.pcs[id];
              pc.n <= |pc.g.ops| && pc.g.first + |pc.g.ops| <= MAX_SEQUENCE
    {
    }

    static lemma FinishingFits(st: State, id: nat)
      requires Inv(st) && Front(st, id) && st.pcs[id].Finishing?
      ensures 1 <= st.pcs[id].g.count <= |st.queue| && Distinct(st.queue)
    {
      QueueIsDistinct(st);
      FinishedGroup(st, st.pcs[id]);
    }

    /** Walks the queue behind the leader. The shared batch is empty at the start. */
    static method Collect(byteSize: seq<Store.Op> -> nat, queue: seq<Writer>, shared: seq<Store.Op>)
      returns (n: nat, ops: seq<Store.Op>, merged: bool)
      requires queue != [] && queue[0].ops.Some? && shared == []
      ensures IsGroup(byteSize, queue, n, ops)
      ensures !merged ==> ops == queue[0].ops.value
    {
      var first := queue[0];
      var size := byteSize(first.ops.value);
      var limit := MaxSize(size);
      var tmp := shared;
      merged := false;
      n := 1;
      MergedStep(queue, 0);
      SizeStep(byteSize, queue, 0);
      while n < |queue|
        invariant Collected(byteSize, queue, n, size, limit, merged, tmp)
      {
        var w := queue[n];
        if w.sync && !first.sync {
          break;
        }
        MergedStep(queue, n);
        SizeStep(byteSize, queue, n);
        if w.ops.Some? {
          size := size + byteSize(w.ops.value);
          if size > limit {
            break;
          }
          if !merged {
            tmp := tmp + first.ops.value;
            merged := true;
          }
          tmp := tmp + w.ops.value;
        }
        n := n + 1;
      }
      ops := if merged then tmp else first.ops.value;
    }

    /** What the walk has collected from the first `n` writers. */
    static ghost predicate Collected(byteSize: seq<Store.Op> -> nat, queue: seq<Writer>, n: nat, size: int, limit: nat,
                                     merged: bool, tmp: seq<Store.Op>)
      requires queue != [] && queue[0].ops.Some?
    {
      1 <= n <= |queue| && size == TotalSize(byteSize, queue[..n])
      && Merged(queue[..n]) == (if merged then tmp else queue[0].ops.value) && (!merged ==> tmp == [])
      && (!queue[0].sync ==> forall i :: 0 <= i < n ==> !queue[i].sync)
      && forall i :: 1 <= i < n && queue[i].ops.Some? ==> TotalSize(byteSize, queue[..i + 1]) <= limit
    }

    static lemma MergedPrefix(queue: seq<Writer>, n: nat)
      requires n <= |queue|
      ensures |Merged(queue[..n])| <= |Merged(queue)|
    {
      assert queue == queue[..n] + queue[n..];
      MergedConcat(queue[..n], queue[n..]);
    }

    method AddRecord(id: nat, ok: bool)
      requires Inv(S()) && Front(S(), id) && pcs[id].Logging?
      modifies this
      ensures Inv(S()) && Next(byteSize, old(S()), AddRecordStep(id, ok), S())
    {
      ghost var st := S();
      var g := pcs[id].g;
      if ok {
        log := log + [Record(g.first, g.ops)];
        pcs := pcs[id := if queue[0].sync then Syncing(g) else Inserting(g, 0)];
      } else {
        pcs := pcs[id := Finishing(g, false, false, false)];
      }
      StepKeeps(byteSize, st, AddRecordStep(id, ok), S());
    }

    method Sync(id: nat, ok: bool)
      requires Inv(S()) && Front(S(), id) && pcs[id].Syncing?
      modifies this
      ensures Inv(S()) && Next(byteSize, old(S()), SyncStep(id, ok), S())
    {
      ghost var st := S();
      var g := pcs[id].g;
      if ok {
        synced := |log|;
        pcs := pcs[id := Inserting(g, 0)];
      } else {
        pcs := pcs[id := Finishing(g, true, false, true)];
      }
      StepKeeps(byteSize, st, SyncStep(id, ok), S());
    }

    method Insert(id: nat)
      requires Inv(S()) && Front(S(), id) && pcs[id].Inserting?
      modifies this
      ensures Inv(S())
      ensures Next(byteSize, old(S()),
                   if old(pcs[id].n) < |old(pcs[id].g.ops)| then InsertStep(id) else InsertedStep(id), S())
    {
      ghost var st := S();
      InsertingFits(st, id);
      InsertNext(id);
      StepKeeps(byteSize, st, if st.pcs[id].n < |st.pcs[id].g.ops| then InsertStep(id) else InsertedStep(id), S());
    }

    /** The inserter adds one entry and counts its sequence number up. */
    method InsertNext(id: nat)
      requires Front(S(), id) && pcs[id].Inserting?
      requires pcs[id].n <= |pcs[id].g.ops| && pcs[id].g.first + |pcs[id].g.ops| <= MAX_SEQUENCE
      modifies this
      ensures if old(pcs[id].n) < |old(pcs[id].g.ops)| then GroupCommit.Insert(old(S()), S(), id)
              else GroupCommit.Inserted(old(S()), S(), id)
    {
      var g, n := pcs[id].g, pcs[id].n;
      if n < |g.ops| {
        mem := mem + {Store.EntryOf(g.ops[n], g.first + n)};
        pcs := pcs[id := Inserting(g, n + 1)];
      } else {
        pcs := pcs[id := Finishing(g, true, true, false)];
      }
    }

    method Finish(id: nat)
      requires Inv(S()) && Front(S(), id) && pcs[id].Finishing?
      modifies this
      ensures Inv(S()) && Next(byteSize, old(S()), FinishStep(id), S())
    {
      ghost var st := S();
      FinishingFits(st, id);
      Release(id);
      StepKeeps(byteSize, st, FinishStep(id), S());
    }

    /** The new sequence number becomes visible, and the group leaves the queue. */
    method Release(id: nat)
      requires Front(S(), id) && pcs[id].Finishing? && 1 <= pcs[id].g.count <= |queue| && Distinct(queue)
      modifies this
      ensures GroupCommit.Finish(old(S()), S(), id)
    {
      ghost var st := S();
      var pc := pcs[id];
      var g := pc.g;
      var rest, answers := PopGroup(queue, done, queue[g.count - 1].id, pc.ok, g.count);
      ghost var z := Released(st, id, answers);
      Leave(id, pc, rest, answers);
      assert S() == z;
    }

    method Leave(id: nat, pc: PC, rest: seq<Writer>, answers: map<nat, bool>)
      requires pc.Finishing? && pc.g.count <= |queue|
      modifies this
      ensures queue == rest && done == answers && pcs == old(pcs)[id := Returned(pc.ok)]
      ensures tmp == (if pc.g.merged then [] else old(tmp)) && last == old(last) + |pc.g.ops|
      ensures bgError == (old(bgError) || pc.syncError)
      ensures served == old(served) + [Served(old(queue)[..pc.g.count], pc.g.first, pc.g.ops, pc.logged, pc.ok)]
      ensures S() == old(S()).(queue := queue, done := done, pcs := pcs, tmp := tmp, last := last, bgError := bgError, served := served)
    {
      served := served + [Served(queue[..pc.g.count], pc.g.first, pc.g.ops, pc.logged, pc.ok)];
      queue, done := rest, answers;
      pcs := pcs[id := Returned(pc.ok)];
      last := last + |pc.g.ops|;
      tmp := if pc.g.merged then [] else tmp;
      bgError := bgError || pc.syncError;
    }

    static ghost function Released(st: State, id: nat, answers: map<nat, bool>): (r: State)
      requires Front(st, id) && st.pcs[id].Finishing? && 1 <= st.pcs[id].g.count <= |st.queue|
      requires Notified(st.done, answers, st.queue[1..st.pcs[id].g.count], st.pcs[id].ok)
      ensures GroupCommit.Finish(st, r, id)
    {
      var pc := st.pcs[id];
      var g := pc.g;
      st.(queue := st.queue[g.count..], pcs := st.pcs[id := Returned(pc.ok)], done := answers,
          tmp := if g.merged then [] else st.tmp, last := st.last + |g.ops|, bgError := st.bgError || pc.syncError,
          served := st.served + [Served(st.queue[..g.count], g.first, g.ops, pc.logged, pc.ok)])
    }

    static lemma NotifiedOn(done: map<nat, bool>, answers: map<nat, bool>, queue: seq<Writer>, k: nat, ok: bool)
      requires 1 <= k < |queue| && Notified(done, answers, queue[1..k], ok)
      ensures Notified(done, answers[queue[k].id := ok], queue[1..k + 1], ok)
    {
      assert queue[1..k + 1] == queue[1..k] + [queue[k]];
      assert forall w :: w in queue[1..k + 1] <==> w in queue[1..k] || w == queue[k];
    }

    /** Pops writers up to the last one of the group and leaves them the answer. */
    static method PopGroup(queue: seq<Writer>, done: map<nat, bool>, lastWriter: nat, ok: bool, ghost count: nat)
      returns (rest: seq<Writer>, answers: map<nat, bool>)
      requires 1 <= count <= |queue| && Distinct(queue) && queue[count - 1].id == lastWriter
      ensures rest == queue[count..] && Notified(done, answers, queue[1..count], ok)
    {
      rest, answers := queue, done;
      ghost var k := 0;
      while true
        invariant k < count && rest == queue[k..]
        invariant if k == 0 then answers == done else Notified(done, answers, queue[1..k], ok)
        decreases count - k
      {
        var ready := rest[0];
        rest := rest[1..];
        if ready.id != queue[0].id {
          NotifiedOn(done, answers, queue, k, ok);
          answers := answers[ready.id := ok];
        }
        if ready.id == lastWriter {
          assert k == count - 1;
          break;
        }
        k := k + 1;
      }
    }
  }
}
