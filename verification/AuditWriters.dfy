/** Concurrent writers of the audit chain, as a state machine.

    A transaction takes the transaction-scoped advisory lock, reads the head of the
    rows it can see, and inserts rows chained to that head; only then may it go on
    to flush again, commit or roll back. Every step of every transaction interleaves
    freely with the others, ids come from a sequence that is never rolled back, and
    an insert may stop part-way, which leaves only rollback. */
module AuditWriters {
  import opened Collections
  import opened AuditChain

  type TxId = int

  /** `head` is the hash read since the lock was taken and not yet written to. */
  datatype Tx = Tx(pending: seq<AuditRow>, head: Option<string>, failed: bool)

  datatype State = State(committed: seq<AuditRow>, txs: map<TxId, Tx>, lock: Option<TxId>, nextId: nat)

  datatype Step =
    | Begin(t: TxId)
    | Lock(t: TxId)
    | ReadHead(t: TxId, head: string)
    | Insert(t: TxId, entries: seq<Entry>, done: nat, skippedIds: nat)
    | Commit(t: TxId)
    | Rollback(t: TxId)

  /** Read committed: a statement sees the committed rows and its own. */
  function Visible(s: State, t: TxId): seq<AuditRow>
    requires t in s.txs
  {
    s.committed + s.txs[t].pending
  }

  /** `head` is the hash of the row with the greatest id, or the genesis value. */
  ghost predicate NewestHash(rows: seq<AuditRow>, head: string) {
    if rows == [] then head == GENESIS
    else
      exists i :: 0 <= i < |rows| && rows[i].rowHash == head && forall j :: 0 <= j < |rows| ==> rows[j].id <= rows[i].id
  }

  function Release(s: State, t: TxId): Option<TxId> {
    if s.lock == Some(t) then None else s.lock
  }

  ghost predicate Enabled(s: State, step: Step) {
    match step
    case Begin(t) => t !in s.txs
    case Lock(t) => t in s.txs && !s.txs[t].failed && (s.lock == None || s.lock == Some(t))
    case ReadHead(t, head) =>
      t in s.txs && !s.txs[t].failed && s.lock == Some(t) && NewestHash(Visible(s, t), head)
    case Insert(t, entries, done, _) =>
      t in s.txs && !s.txs[t].failed && s.txs[t].head.Some? && done <= |entries|
    case Commit(t) => t in s.txs && !s.txs[t].failed
    case Rollback(t) => t in s.txs
  }

  ghost function After(h: Hashing, s: State, step: Step): State
    requires Enabled(s, step)
  {
    match step
    case Begin(t) => s.(txs := s.txs[t := Tx([], None, false)])
    case Lock(t) => s.(lock := Some(t))
    case ReadHead(t, head) => s.(txs := s.txs[t := s.txs[t].(head := Some(head))])
    case Insert(t, entries, done, skippedIds) =>
      var tx := s.txs[t];
      var rows := Chained(h, tx.head.value, entries, s.nextId)[..done];
      s.(txs := s.txs[t := Tx(tx.pending + rows, None, done < |entries|)],
         nextId := s.nextId + done + skippedIds)
    case Commit(t) =>
      s.(committed := Visible(s, t), txs := s.txs - {t}, lock := Release(s, t))
    case Rollback(t) =>
      s.(txs := s.txs - {t}, lock := Release(s, t))
  }

  ghost predicate Init(s: State) {
    s.committed == [] && s.txs == map[] && s.lock == None
  }

  ghost predicate NextAt(h: Hashing, run: seq<State>, i: nat)
    requires i + 1 < |run|
  {
    exists step :: Enabled(run[i], step) && run[i + 1] == After(h, run[i], step)
  }

  ghost predicate IsRun(h: Hashing, run: seq<State>) {
    && run != [] && Init(run[0])
    && forall i :: 0 <= i < |run| - 1 ==> NextAt(h, run, i)
  }

  // ---- the invariant -----------------------------------------------------------

  ghost predicate IdsAscend(rows: seq<AuditRow>, bound: nat) {
    && (forall i, j :: 0 <= i < j < |rows| ==> rows[i].id < rows[j].id)
    && (forall i :: 0 <= i < |rows| ==> rows[i].id < bound)
  }

  ghost predicate GoodLog(h: Hashing, rows: seq<AuditRow>, bound: nat) {
    ChainHolds(h, rows) && IdsAscend(rows, bound)
  }

  /** Only the lock holder has uncommitted rows or a head in hand; its rows extend
      the committed chain, and its head is still the end of that chain. */
  ghost predicate Inv(h: Hashing, s: State) {
    && GoodLog(h, s.committed, s.nextId)
    && (s.lock.Some? ==> s.lock.value in s.txs && GoodLog(h, Visible(s, s.lock.value), s.nextId))
    && (forall t :: t in s.txs ==>
          if s.lock == Some(t)
          then s.txs[t].head.Some? ==> s.txs[t].head.value == Head(Visible(s, t))
          else s.txs[t].pending == [] && s.txs[t].head == None)
  }

  lemma NewestIsHead(rows: seq<AuditRow>, bound: nat, head: string)
    requires IdsAscend(rows, bound) && NewestHash(rows, head)
    ensures head == Head(rows)
  {
    if rows != [] {
      var i :| 0 <= i < |rows| && rows[i].rowHash == head && forall j :: 0 <= j < |rows| ==> rows[j].id <= rows[i].id;
      assert rows[|rows| - 1].id <= rows[i].id;
    }
  }

  lemma InsertKeepsLogGood(
    h: Hashing, rows: seq<AuditRow>, entries: seq<Entry>, nextId: nat, done: nat, skippedIds: nat)
    requires GoodLog(h, rows, nextId) && done <= |entries|
    ensures GoodLog(h, rows + Chained(h, Head(rows), entries, nextId)[..done], nextId + done + skippedIds)
  {
    ChainedExtends(h, rows, entries, nextId, done);
  }

  lemma StepKeepsInv(h: Hashing, s: State, step: Step)
    requires Inv(h, s) && Enabled(s, step)
    ensures Inv(h, After(h, s, step))
  {
    var s' := After(h, s, step);
    match step
    case Begin(t) =>
    case Lock(t) =>
      assert Visible(s, t) == s.committed || s.lock == Some(t);
    case ReadHead(t, head) =>
      assert Visible(s', t) == Visible(s, t);
      NewestIsHead(Visible(s, t), s.nextId, head);
    case Insert(t, entries, done, skippedIds) =>
      InsertKeepsLogGood(h, Visible(s, t), entries, s.nextId, done, skippedIds);
      assert Visible(s', t) == Visible(s, t) + Chained(h, Head(Visible(s, t)), entries, s.nextId)[..done];
    case Commit(t) =>
      if s.lock != Some(t) {
        assert Visible(s, t) == s.committed;
      }
    case Rollback(t) =>
  }

  /** In every interleaving, the committed log verifies and its id order is its
      commit order, also after rollbacks of partly written batches. */
  lemma {:induction false} CommittedLogVerifies(h: Hashing, run: seq<State>, i: nat)
    requires IsRun(h, run) && i < |run|
    ensures Inv(h, run[i])
    ensures ChainHolds(h, run[i].committed) && IdsAscend(run[i].committed, run[i].nextId)
  {
    if i > 0 {
      CommittedLogVerifies(h, run, i - 1);
      assert NextAt(h, run, i - 1);
      var step :| Enabled(run[i - 1], step) && run[i] == After(h, run[i - 1], step);
      StepKeepsInv(h, run[i - 1], step);
    }
  }

  /** The committed log only ever grows at its end. */
  lemma {:induction false} CommittedLogGrows(h: Hashing, run: seq<State>, i: nat, j: nat)
    requires IsRun(h, run) && i <= j < |run|
    ensures run[i].committed <= run[j].committed
    decreases j - i
  {
    if i < j {
      CommittedLogGrows(h, run, i, j - 1);
      assert NextAt(h, run, j - 1);
    }
  }

  // ---- what the committed log records ----------------------------------------------

  /** `steps` are the steps that the run takes. */
  ghost predicate Takes(h: Hashing, run: seq<State>, steps: seq<Step>) {
    && run != [] && Init(run[0]) && |steps| == |run| - 1
    && forall i :: 0 <= i < |steps| ==> Enabled(run[i], steps[i]) && run[i + 1] == After(h, run[i], steps[i])
  }

  lemma {:induction false} RunTakesSteps(h: Hashing, run: seq<State>) returns (steps: seq<Step>)
    requires IsRun(h, run)
    ensures Takes(h, run, steps)
    decreases |run|
  {
    if |run| == 1 {
      steps := [];
    } else {
      var n := |run| - 1;
      forall i | 0 <= i < n - 1 ensures NextAt(h, run[..n], i) {
        assert NextAt(h, run, i);
      }
      var before := RunTakesSteps(h, run[..n]);
      assert NextAt(h, run, n - 1);
      var last :| Enabled(run[n - 1], last) && run[n] == After(h, run[n - 1], last);
      steps := before + [last];
    }
  }

  /** What a transaction has flushed since it began, batch after batch. */
  ghost function Flushed(steps: seq<Step>, t: TxId): seq<Entry> {
    if steps == [] then []
    else
      var before, last := steps[..|steps| - 1], steps[|steps| - 1];
      if last.t != t || last.Lock? || last.ReadHead? then Flushed(before, t)
      else if last.Insert? then Flushed(before, t) + last.entries
      else []
  }

  /** What the transactions that committed had flushed, in the order of their commits. */
  ghost function CommittedEntries(steps: seq<Step>): seq<Entry> {
    if steps == [] then []
    else
      var before, last := steps[..|steps| - 1], steps[|steps| - 1];
      CommittedEntries(before) + if last.Commit? then Flushed(before, last.t) else []
  }

  /** The rows of the log, and those of every transaction that has not failed, record `steps`. */
  ghost predicate Records(s: State, steps: seq<Step>) {
    && Entries(s.committed) == CommittedEntries(steps)
    && forall t :: t in s.txs && !s.txs[t].failed ==> Entries(s.txs[t].pending) == Flushed(steps, t)
  }

  lemma InsertRecords(h: Hashing, rows: seq<AuditRow>, head: string, entries: seq<Entry>, firstId: nat)
    ensures Entries(rows + Chained(h, head, entries, firstId)) == Entries(rows) + entries
  {
    var written := Chained(h, head, entries, firstId);
    forall k | 0 <= k < |entries| ensures written[k].entry == entries[k] {
      ChainedRecords(h, head, entries, firstId, k);
    }
  }

  lemma InsertStepRecords(h: Hashing, s: State, before: seq<Step>, step: Step, s': State)
    requires step.Insert? && Enabled(s, step) && Records(s, before) && s' == After(h, s, step)
    ensures Records(s', before + [step])
  {
    LastStepCounts(before, step);
    var tx := s.txs[step.t];
    var rows := Chained(h, tx.head.value, step.entries, s.nextId);
    assert s'.committed == s.committed && s'.txs.Keys == s.txs.Keys;
    forall t | t in s'.txs && !s'.txs[t].failed
      ensures Entries(s'.txs[t].pending) == Flushed(before + [step], t)
    {
      if t == step.t {
        InsertRecords(h, tx.pending, tx.head.value, step.entries, s.nextId);
        assert rows[..step.done] == rows;
      }
    }
  }

  lemma CommitStepRecords(h: Hashing, s: State, before: seq<Step>, step: Step, s': State)
    requires step.Commit? && Enabled(s, step) && Records(s, before) && s' == After(h, s, step)
    ensures Records(s', before + [step])
  {
    LastStepCounts(before, step);
    assert s'.committed == s.committed + s.txs[step.t].pending;
    assert Entries(s'.committed) == Entries(s.committed) + Entries(s.txs[step.t].pending);
  }

  lemma QuietStepRecords(h: Hashing, s: State, before: seq<Step>, step: Step, s': State)
    requires !step.Insert? && !step.Commit? && Enabled(s, step) && Records(s, before) && s' == After(h, s, step)
    ensures Records(s', before + [step])
  {
    LastStepCounts(before, step);
    assert s'.committed == s.committed;
  }

  lemma StepRecords(h: Hashing, s: State, before: seq<Step>, step: Step)
    requires Enabled(s, step) && Records(s, before)
    ensures Records(After(h, s, step), before + [step])
  {
    if step.Insert? {
      InsertStepRecords(h, s, before, step, After(h, s, step));
    } else if step.Commit? {
      CommitStepRecords(h, s, before, step, After(h, s, step));
    } else {
      QuietStepRecords(h, s, before, step, After(h, s, step));
    }
  }

  lemma LastStepCounts(before: seq<Step>, step: Step)
    ensures CommittedEntries(before + [step])
         == CommittedEntries(before) + if step.Commit? then Flushed(before, step.t) else []
    ensures forall t ::
              Flushed(before + [step], t) == if step.t != t || step.Lock? || step.ReadHead? then Flushed(before, t)
                                             else if step.Insert? then Flushed(before, t) + step.entries else []
  {
    assert (before + [step])[..|before|] == before;
  }

  /** In every interleaving, the committed log records what the committed transactions flushed and
      nothing else: each entry once, in order, transaction after transaction. */
  lemma {:induction false} CommittedLogRecords(h: Hashing, run: seq<State>, steps: seq<Step>, i: nat)
    requires Takes(h, run, steps) && i < |run|
    ensures Records(run[i], steps[..i])
    ensures Entries(run[i].committed) == CommittedEntries(steps[..i])
  {
    if i > 0 {
      CommittedLogRecords(h, run, steps, i - 1);
      StepRecords(h, run[i - 1], steps[..i - 1], steps[i - 1]);
      assert steps[..i] == steps[..i - 1] + [steps[i - 1]];
    }
  }
}
