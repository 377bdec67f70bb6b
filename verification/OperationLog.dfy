/**
 The bounded operation-log queue with its writer thread.  Steps are what one hold of
 the state lock, one queue operation or one transaction does; a run is any
 interleaving of emitters, closers and the writer.
 */
module OperationLog {
  import opened Wrappers

  const QUEUE_SIZE: nat := 4096
  const BATCH_SIZE: nat := 128

  type Row = string

  datatype Item = Log(row: Row) | Stop

  datatype Stored = Stored(id: int, row: Row)

  datatype Writer = Idle | Collecting | Writing | Exited

  /** The second line is history: the rows offered while open, of these the ones put on the
      queue and the dropped ones, those taken through a transaction, of these the inserted and the failed
      ones, each in order, and the rows the table held at the start. */
  datatype State = State(queue: seq<Item>, batch: seq<Item>, writer: Writer, closed: bool, stopDue: bool, dropped: nat, failed: nat, table: seq<Stored>,
                         offers: seq<Row>, accepted: seq<Row>, droppedRows: seq<Row>, processed: seq<Row>, inserted: seq<Row>, failedRows: seq<Row>, existing: seq<Row>)
  {
    /** Every row that was ever in the table. */
    function Ever(): seq<Row> {
      existing + inserted
    }
  }

  datatype Step =
    | Emit(row: Row)
    | BeginClose      // marks the store closed, once
    | PutStop         // the blocking put of the sentinel that follows
    | GetFirst
    | GetMore
    | EndBatch        // the batch is full or the queue is empty
    | Commit
    | Fail

  function Rows(items: seq<Item>): seq<Row> {
    if items == [] then []
    else Rows(items[..|items| - 1]) + (if items[|items| - 1].Log? then [items[|items| - 1].row] else [])
  }

  // ----- The table

  function NextId(table: seq<Stored>): int {
    if table == [] then 1 else table[|table| - 1].id + 1
  }

  function Inserted(table: seq<Stored>, rows: seq<Row>): seq<Stored> {
    if rows == [] then table
    else
      var before := Inserted(table, rows[..|rows| - 1]);
      before + [Stored(NextId(before), rows[|rows| - 1])]
  }

  function Above(table: seq<Stored>, id: int): seq<Stored> {
    if table == [] then []
    else Above(table[..|table| - 1], id) + (if table[|table| - 1].id > id then [table[|table| - 1]] else [])
  }

  /** Deletes the rows up to the newest one beyond the retained number, if there is one. */
  function Trimmed(table: seq<Stored>, retain: nat): seq<Stored> {
    if |table| <= retain then table else Above(table, table[|table| - 1 - retain].id)
  }

  predicate Increasing(table: seq<Stored>) {
    forall i, k :: 0 <= i < k < |table| ==> table[i].id < table[k].id
  }

  function Content(table: seq<Stored>): seq<Row> {
    seq(|table|, i requires 0 <= i < |table| => table[i].row)
  }

  lemma {:induction false} InsertedAppends(table: seq<Stored>, rows: seq<Row>)
    requires Increasing(table)
    ensures Increasing(Inserted(table, rows)) && Content(Inserted(table, rows)) == Content(table) + rows
  {
    if rows != [] {
      var front, before := rows[..|rows| - 1], Inserted(table, rows[..|rows| - 1]);
      InsertedAppends(table, front);
      assert rows == front + [rows[|rows| - 1]];
      assert Content(Inserted(table, rows)) == Content(before) + [rows[|rows| - 1]];
    }
  }

  lemma {:induction false} AboveIsSuffix(table: seq<Stored>, k: nat)
    requires Increasing(table) && k < |table|
    ensures Above(table, table[k].id) == table[k + 1..]
  {
    var front := table[..|table| - 1];
    if k < |front| {
      AboveIsSuffix(front, k);
    } else {
      NoneAbove(front, table[k].id);
    }
  }

  lemma {:induction false} NoneAbove(table: seq<Stored>, id: int)
    requires forall i :: 0 <= i < |table| ==> table[i].id <= id
    ensures Above(table, id) == []
  {
    if table != [] {
      NoneAbove(table[..|table| - 1], id);
    }
  }

  /** Trimming keeps exactly the newest rows. */
  lemma TrimmedKeepsNewest(table: seq<Stored>, retain: nat)
    requires Increasing(table)
    ensures Trimmed(table, retain) == if |table| <= retain then table else table[|table| - retain..]
  {
    if |table| > retain {
      AboveIsSuffix(table, |table| - 1 - retain);
    }
  }

  // ----- Steps

  predicate Enabled(s: State, e: Step) {
    match e
    case Emit(_) => true
    case BeginClose => true
    case PutStop => s.stopDue && |s.queue| < QUEUE_SIZE
    case GetFirst => s.writer.Idle? && s.queue != []
    case GetMore => s.writer.Collecting? && |s.batch| < BATCH_SIZE && s.queue != []
    case EndBatch => s.writer.Collecting? && (|s.batch| >= BATCH_SIZE || s.queue == [])
    case Commit => s.writer.Writing?
    case Fail => s.writer.Writing?
  }

  function Apply(s: State, e: Step, retain: nat): State
    requires Enabled(s, e)
  {
    match e
    case Emit(row) =>
      if s.closed then s
      else if |s.queue| < QUEUE_SIZE then s.(queue := s.queue + [Log(row)], accepted := s.accepted + [row], offers := s.offers + [row])
      else s.(dropped := s.dropped + 1, droppedRows := s.droppedRows + [row], offers := s.offers + [row])
    case BeginClose => if s.closed then s else s.(closed := true, stopDue := true)
    case PutStop => s.(queue := s.queue + [Stop], stopDue := false)
    case GetFirst => s.(queue := s.queue[1..], batch := [s.queue[0]], writer := Collecting)
    case GetMore => s.(queue := s.queue[1..], batch := s.batch + [s.queue[0]])
    case EndBatch => s.(writer := Writing)
    case Commit =>
      var rows := Rows(s.batch);
      s.(table := if rows == [] then s.table else Trimmed(Inserted(s.table, rows), retain),
         inserted := s.inserted + rows, processed := s.processed + rows,
         batch := [], writer := if Stop in s.batch then Exited else Idle)
    case Fail =>
      var rows := Rows(s.batch);
      s.(failed := s.failed + |rows|, failedRows := s.failedRows + rows, processed := s.processed + rows,
         batch := [], writer := if Stop in s.batch then Exited else Idle)
  }

  predicate Starts(s: State) {
    && s.queue == [] && s.batch == [] && s.writer.Idle? && !s.closed && !s.stopDue && s.dropped == 0 && s.failed == 0
    && Increasing(s.table) && s.offers == [] && s.accepted == [] && s.droppedRows == [] && s.processed == [] && s.inserted == [] && s.failedRows == [] && s.existing == Content(s.table)
  }

  ghost function Run(s: State, steps: seq<Step>, retain: nat): Option<State> {
    if steps == [] then Some(s)
    else
      match Run(s, steps[..|steps| - 1], retain)
      case None => None
      case Some(t) => if Enabled(t, steps[|steps| - 1]) then Some(Apply(t, steps[|steps| - 1], retain)) else None
  }

  // ----- Invariant

  /** The sentinel, if it is among the items, is the last of them. */
  predicate StopLast(items: seq<Item>) {
    forall i :: 0 <= i < |items| - 1 ==> items[i].Log?
  }

  /** `part` is the newest rows of `all`. */
  ghost predicate Newest(part: seq<Row>, all: seq<Row>) {
    |part| <= |all| && part == all[|all| - |part|..]
  }

  /** `all` is made of `a` and `b`, each in its own order. */
  ghost predicate Interleaves(a: seq<Row>, b: seq<Row>, all: seq<Row>) {
    if all == [] then a == [] && b == []
    else
      var front, last := all[..|all| - 1], all[|all| - 1];
      || (a != [] && a[|a| - 1] == last && Interleaves(a[..|a| - 1], b, front))
      || (b != [] && b[|b| - 1] == last && Interleaves(a, b[..|b| - 1], front))
  }

  lemma {:induction false} InterleavesGrow(a: seq<Row>, b: seq<Row>, all: seq<Row>, more: seq<Row>)
    requires Interleaves(a, b, all)
    ensures Interleaves(a + more, b, all + more) && Interleaves(a, b + more, all + more)
  {
    if more == [] {
      assert a + more == a && b + more == b && all + more == all;
    } else {
      var front := more[..|more| - 1];
      InterleavesGrow(a, b, all, front);
      assert (a + more)[..|a + more| - 1] == a + front;
      assert (b + more)[..|b + more| - 1] == b + front;
      assert (all + more)[..|all + more| - 1] == all + front;
    }
  }

  lemma {:induction false} InterleavesCounts(a: seq<Row>, b: seq<Row>, all: seq<Row>)
    requires Interleaves(a, b, all)
    ensures multiset(all) == multiset(a) + multiset(b) && |all| == |a| + |b|
  {
    if all != [] {
      var front, last := all[..|all| - 1], all[|all| - 1];
      assert all == front + [last];
      if a != [] && a[|a| - 1] == last && Interleaves(a[..|a| - 1], b, front) {
        InterleavesCounts(a[..|a| - 1], b, front);
        assert a == a[..|a| - 1] + [last];
      } else {
        InterleavesCounts(a, b[..|b| - 1], front);
        assert b == b[..|b| - 1] + [last];
      }
    }
  }

  ghost predicate QueueInv(s: State) {
    && |s.queue| <= QUEUE_SIZE
    && StopLast(s.batch + s.queue)
    && (Stop in s.batch + s.queue ==> s.closed && !s.stopDue)
    && (s.stopDue ==> s.closed)
    && (s.writer.Exited? ==> s.queue == [] && s.closed && !s.stopDue)
    && (s.writer.Idle? || s.writer.Exited? ==> s.batch == [])
    && |s.batch| <= BATCH_SIZE
    && (s.closed && !s.stopDue && !s.writer.Exited? ==> Stop in s.batch + s.queue)
  }

  ghost predicate RowsInv(s: State) {
    && Interleaves(s.accepted, s.droppedRows, s.offers) && s.dropped == |s.droppedRows|
    && s.accepted == s.processed + Rows(s.batch) + Rows(s.queue)
    && Interleaves(s.inserted, s.failedRows, s.processed) && s.failed == |s.failedRows|
  }

  ghost predicate TableInv(s: State, retain: nat) {
    && Increasing(s.table)
    && Newest(Content(s.table), s.Ever())
    && (s.inserted != [] ==> |s.table| == if |s.Ever()| <= retain then |s.Ever()| else retain)
    && (s.inserted == [] ==> Content(s.table) == s.existing)
  }

  ghost predicate Inv(s: State, retain: nat) {
    QueueInv(s) && RowsInv(s) && TableInv(s, retain)
  }

  lemma {:induction false} RowsConcat(a: seq<Item>, b: seq<Item>)
    ensures Rows(a + b) == Rows(a) + Rows(b)
  {
    if b == [] {
      assert a + b == a;
    } else {
      RowsConcat(a, b[..|b| - 1]);
      assert (a + b)[..|a + b| - 1] == a + b[..|b| - 1];
    }
  }

  lemma HeadRows(queue: seq<Item>)
    requires queue != []
    ensures Rows(queue) == Rows([queue[0]]) + Rows(queue[1..])
  {
    RowsConcat([queue[0]], queue[1..]);
    assert [queue[0]] + queue[1..] == queue;
  }

  lemma RowsOne(item: Item)
    ensures Rows([]) == [] && Rows([item]) == if item.Log? then [item.row] else []
  {
  }

  lemma EmitKeepsRows(s: State, row: Row, retain: nat)
    requires RowsInv(s)
    ensures RowsInv(Apply(s, Emit(row), retain))
  {
    hide Trimmed, Inserted, Rows, Interleaves;
    RowsOne(Log(row));
    InterleavesGrow(s.accepted, s.droppedRows, s.offers, [row]);
    RowsConcat(s.queue, [Log(row)]);
    assert s.processed + Rows(s.batch) + (Rows(s.queue) + [row]) == s.accepted + [row];
  }

  lemma PutKeepsRows(s: State, retain: nat)
    requires RowsInv(s) && Enabled(s, PutStop)
    ensures RowsInv(Apply(s, PutStop, retain))
  {
    hide Trimmed, Inserted, Rows, Interleaves;
    RowsOne(Stop);
    RowsConcat(s.queue, [Stop]);
    assert Rows(s.queue) + [] == Rows(s.queue);
  }

  lemma GetKeepsRows(s: State, e: Step, retain: nat)
    requires RowsInv(s) && Enabled(s, e) && (e.GetMore? || (e.GetFirst? && s.batch == []))
    ensures RowsInv(Apply(s, e, retain))
  {
    hide Trimmed, Inserted, Rows, Interleaves;
    assert s.batch == [] ==> s.batch + [s.queue[0]] == [s.queue[0]];
    HeadMoves(s.processed, s.batch, s.queue);
  }

  lemma HeadMoves(processed: seq<Row>, batch: seq<Item>, queue: seq<Item>)
    requires queue != []
    ensures processed + Rows(batch) + Rows(queue) == processed + Rows(batch + [queue[0]]) + Rows(queue[1..])
  {
    hide Rows;
    HeadRows(queue);
    RowsConcat(batch, [queue[0]]);
    Regroup(processed, Rows(batch), Rows([queue[0]]), Rows(queue[1..]));
  }

  lemma Regroup(a: seq<Row>, b: seq<Row>, c: seq<Row>, d: seq<Row>)
    ensures a + b + (c + d) == a + (b + c) + d
  {
  }

  lemma EndKeepsRows(s: State, e: Step, retain: nat)
    requires RowsInv(s) && Enabled(s, e) && (e.Commit? || e.Fail?)
    ensures RowsInv(Apply(s, e, retain))
  {
    hide Trimmed, Inserted, Rows, Interleaves;
    RowsOne(Stop);
    InterleavesGrow(s.inserted, s.failedRows, s.processed, Rows(s.batch));
    assert s.accepted == (s.processed + Rows(s.batch)) + [] + Rows(s.queue);
  }

  lemma StepKeepsRows(s: State, e: Step, retain: nat)
    requires RowsInv(s) && QueueInv(s) && Enabled(s, e)
    ensures RowsInv(Apply(s, e, retain))
  {
    IdleIsEmpty(s);
    hide QueueInv, Trimmed, Inserted, Rows, Interleaves;
    match e
    case Emit(row) => EmitKeepsRows(s, row, retain);
    case PutStop => PutKeepsRows(s, retain);
    case GetFirst => GetKeepsRows(s, e, retain);
    case GetMore => GetKeepsRows(s, e, retain);
    case Commit => EndKeepsRows(s, e, retain);
    case Fail => EndKeepsRows(s, e, retain);
    case BeginClose =>
    case EndBatch =>
  }

  lemma IdleIsEmpty(s: State)
    requires QueueInv(s)
    ensures s.writer.Idle? || s.writer.Exited? ==> s.batch == []
  {
  }

  lemma AppendStopLast(items: seq<Item>, item: Item)
    requires StopLast(items) && Stop !in items
    ensures StopLast(items + [item])
  {
    forall i | 0 <= i < |items| ensures items[i].Log? {
      assert items[i] in items;
    }
  }

  lemma StepKeepsQueue(s: State, e: Step, retain: nat)
    requires QueueInv(s) && Enabled(s, e)
    ensures QueueInv(Apply(s, e, retain))
  {
    hide Trimmed, Inserted, Rows;
    var all := s.batch + s.queue;
    var t := Apply(s, e, retain);
    match e
    case Emit(row) =>
      if !s.closed {
        AppendStopLast(all, Log(row));
        assert s.batch + (s.queue + [Log(row)]) == all + [Log(row)];
      }
    case PutStop =>
      AppendStopLast(all, Stop);
      assert s.batch + (s.queue + [Stop]) == all + [Stop];
    case GetFirst =>
      assert t.batch + t.queue == all;
    case GetMore =>
      assert t.batch + t.queue == all;
    case Commit => BatchEnds(s);
    case Fail => BatchEnds(s);
    case _ =>
  }

  /** When the batch holds the sentinel, nothing is left behind it. */
  lemma BatchEnds(s: State)
    requires QueueInv(s)
    ensures Stop in s.batch ==> s.queue == [] && s.closed && !s.stopDue
    ensures StopLast([] + s.queue) && (Stop in [] + s.queue ==> s.closed && !s.stopDue)
  {
    var all := s.batch + s.queue;
    assert [] + s.queue == s.queue;
    if Stop in s.batch {
      var i :| 0 <= i < |s.batch| && s.batch[i] == Stop;
      assert all[i] == Stop;
    }
    forall i | 0 <= i < |s.queue| - 1 ensures s.queue[i].Log? {
      assert all[|s.batch| + i] == s.queue[i];
    }
    assert forall x :: x in s.queue ==> x in all;
  }

  /** A transaction leaves exactly the newest rows, in increasing id order. */
  lemma CommitKeepsTable(s: State, retain: nat)
    requires TableInv(s, retain) && Enabled(s, Commit)
    ensures TableInv(Apply(s, Commit, retain), retain)
  {
    hide Rows, Trimmed, Inserted, Increasing, Newest, Content;
    var rows := Rows(s.batch);
    if rows == [] {
      assert s.inserted + rows == s.inserted;
    } else {
      var full := Inserted(s.table, rows);
      InsertedAppends(s.table, rows);
      TrimmedKeepsNewest(full, retain);
      ContentLength(s.table);
      assert s.inserted == [] ==> s.Ever() == s.existing;
      NewestAfter(s.table, full, Trimmed(full, retain), s.Ever(), rows, retain);
      assert s.existing + (s.inserted + rows) == s.Ever() + rows;
    }
  }

  lemma ContentLength(table: seq<Stored>)
    ensures |Content(table)| == |table|
  {
  }

  lemma NewestAfter(table: seq<Stored>, full: seq<Stored>, trimmed: seq<Stored>, ever: seq<Row>, rows: seq<Row>, retain: nat)
    requires Increasing(full) && Content(full) == Content(table) + rows && Newest(Content(table), ever)
    requires |ever| <= |table| || retain <= |table|
    requires trimmed == if |full| <= retain then full else full[|full| - retain..]
    ensures Increasing(trimmed) && Newest(Content(trimmed), ever + rows)
    ensures |trimmed| == if |ever + rows| <= retain then |ever + rows| else retain
  {
    var all := ever + rows;
    assert |Content(full)| == |full| && |Content(table)| == |table|;
    assert Content(full) == all[|all| - |full|..];
    assert Content(trimmed) == Content(full)[|full| - |trimmed|..];
  }

  lemma StepKeepsInv(s: State, e: Step, retain: nat)
    requires Inv(s, retain) && Enabled(s, e)
    ensures Inv(Apply(s, e, retain), retain)
  {
    hide QueueInv, RowsInv, TableInv;
    StepKeepsQueue(s, e, retain);
    StepKeepsRows(s, e, retain);
    if e.Commit? {
      CommitKeepsTable(s, retain);
    } else {
      OthersKeepTable(s, e, retain);
    }
  }

  lemma OthersKeepTable(s: State, e: Step, retain: nat)
    requires TableInv(s, retain) && Enabled(s, e) && !e.Commit?
    ensures TableInv(Apply(s, e, retain), retain)
  {
  }

  lemma {:induction false} RunKeepsInv(s: State, steps: seq<Step>, retain: nat)
    requires Inv(s, retain) && Run(s, steps, retain).Some?
    ensures Inv(Run(s, steps, retain).value, retain)
  {
    hide Inv;
    if steps != [] {
      RunKeepsInv(s, steps[..|steps| - 1], retain);
      StepKeepsInv(Run(s, steps[..|steps| - 1], retain).value, steps[|steps| - 1], retain);
    }
  }

  /** The rows of the emit calls before the store was closed. */
  ghost function OpenEmits(s: State, steps: seq<Step>, retain: nat): seq<Row> {
    if steps == [] then []
    else
      var front, last := steps[..|steps| - 1], steps[|steps| - 1];
      var before := Run(s, front, retain);
      OpenEmits(s, front, retain) + if last.Emit? && before.Some? && !before.value.closed then [last.row] else []
  }

  lemma OneOffer(s: State, e: Step, retain: nat)
    requires Enabled(s, e)
    ensures Apply(s, e, retain).offers == s.offers + if e.Emit? && !s.closed then [e.row] else []
    ensures Apply(s, e, retain).accepted == s.accepted + if e.Emit? && !s.closed && |s.queue| < 4096 then [e.row] else []
    ensures Apply(s, e, retain).droppedRows == s.droppedRows + if e.Emit? && !s.closed && |s.queue| >= 4096 then [e.row] else []
    ensures Apply(s, e, retain).existing == s.existing
  {
    hide Trimmed, Inserted, Rows;
  }

  lemma {:induction false} OffersAreEmits(s: State, steps: seq<Step>, retain: nat)
    requires Run(s, steps, retain).Some?
    ensures Run(s, steps, retain).value.offers == s.offers + OpenEmits(s, steps, retain)
  {
    hide Apply, Enabled;
    if steps == [] {
      assert s.offers + [] == s.offers;
    } else {
      var front, last := steps[..|steps| - 1], steps[|steps| - 1];
      OffersAreEmits(s, front, retain);
      var before := Run(s, front, retain).value;
      OneOffer(before, last, retain);
      var more := if last.Emit? && !before.closed then [last.row] else [];
      assert (s.offers + OpenEmits(s, front, retain)) + more == s.offers + (OpenEmits(s, front, retain) + more);
    }
  }

  /** Of these, the rows of the calls that found room in the queue, or found it full. */
  ghost function EmitsWith(s: State, steps: seq<Step>, retain: nat, full: bool): seq<Row> {
    if steps == [] then []
    else
      var front, last := steps[..|steps| - 1], steps[|steps| - 1];
      var before := Run(s, front, retain);
      EmitsWith(s, front, retain, full)
      + if last.Emit? && before.Some? && !before.value.closed && (|before.value.queue| >= 4096 <==> full) then [last.row] else []
  }

  /** A row is dropped exactly when the queue holds 4096 items, and put on the queue otherwise. */
  lemma {:induction false} DroppedWhenFull(s: State, steps: seq<Step>, retain: nat)
    requires Run(s, steps, retain).Some?
    ensures Run(s, steps, retain).value.accepted == s.accepted + EmitsWith(s, steps, retain, false)
    ensures Run(s, steps, retain).value.droppedRows == s.droppedRows + EmitsWith(s, steps, retain, true)
  {
    hide Apply, Enabled;
    if steps == [] {
      assert s.accepted + [] == s.accepted && s.droppedRows + [] == s.droppedRows;
    } else {
      var front, last := steps[..|steps| - 1], steps[|steps| - 1];
      DroppedWhenFull(s, front, retain);
      var before := Run(s, front, retain).value;
      OneOffer(before, last, retain);
      var room := if last.Emit? && !before.closed && |before.queue| < 4096 then [last.row] else [];
      var full := if last.Emit? && !before.closed && |before.queue| >= 4096 then [last.row] else [];
      assert (s.accepted + EmitsWith(s, front, retain, false)) + room == s.accepted + (EmitsWith(s, front, retain, false) + room);
      assert (s.droppedRows + EmitsWith(s, front, retain, true)) + full == s.droppedRows + (EmitsWith(s, front, retain, true) + full);
    }
  }

  /** The queue has room whenever a row is emitted. */
  ghost predicate NeverFull(s: State, steps: seq<Step>, retain: nat) {
    forall k :: 0 <= k < |steps| ==> Run(s, steps[..k], retain).Some? && |Run(s, steps[..k], retain).value.queue| < 4096
  }

  lemma {:induction false} NoneDropped(s: State, steps: seq<Step>, retain: nat)
    requires NeverFull(s, steps, retain)
    ensures EmitsWith(s, steps, retain, true) == [] && EmitsWith(s, steps, retain, false) == OpenEmits(s, steps, retain)
  {
    hide Run;
    if steps != [] {
      var front := steps[..|steps| - 1];
      assert forall k :: 0 <= k < |front| ==> front[..k] == steps[..k];
      assert steps[..|front|] == front;
      NoneDropped(s, front, retain);
    }
  }

  /** If the queue never fills, nothing is dropped, and once the writer has exited every row emitted
      while open has been through a transaction, in order. */
  lemma EverythingIsProcessed(start: State, steps: seq<Step>, retain: nat)
    requires Starts(start) && Run(start, steps, retain).Some? && NeverFull(start, steps, retain)
    ensures var s := Run(start, steps, retain).value;
            s.dropped == 0 && (s.writer.Exited? ==> s.processed == OpenEmits(start, steps, retain))
  {
    assert start.accepted == [] && start.droppedRows == [];
    hide Run, Starts, Interleaves, NeverFull, OpenEmits, EmitsWith, Rows;
    NothingIsLost(start, steps, retain);
    DroppedWhenFull(start, steps, retain);
    NoneDropped(start, steps, retain);
    DropsAreCounted(start, steps, retain);
  }

  lemma DropsAreCounted(start: State, steps: seq<Step>, retain: nat)
    requires Starts(start) && Run(start, steps, retain).Some?
    ensures Run(start, steps, retain).value.dropped == |Run(start, steps, retain).value.droppedRows|
  {
    hide Run, Starts, TableInv, QueueInv, Interleaves, Rows;
    StartsInv(start, retain);
    RunKeepsInv(start, steps, retain);
  }

  // ----- A closed store comes to its end

  lemma {:induction false} RunFromFirst(s: State, e: Step, rest: seq<Step>, retain: nat)
    requires Enabled(s, e)
    ensures Run(s, [e] + rest, retain) == Run(Apply(s, e, retain), rest, retain)
  {
    hide Apply, Enabled;
    var all := [e] + rest;
    if rest == [] {
      assert all[..0] == [] && all[0] == e;
      assert Run(s, all[..0], retain) == Some(s);
    } else {
      RunFromFirst(s, e, rest[..|rest| - 1], retain);
      assert all[..|all| - 1] == [e] + rest[..|rest| - 1] && all[|all| - 1] == rest[|rest| - 1];
    }
  }

  function Left(s: State): nat {
    4 * (|s.queue| + if s.stopDue then 2 else 0) + (if s.writer.Collecting? then 2 else if s.writer.Writing? then 1 else 0)
  }

  /** What the writer does next once the store is closed; only an empty queue lets the closer put the sentinel first. */
  function NextStep(s: State): Step {
    match s.writer
    case Writing => Commit
    case Collecting => if |s.batch| < BATCH_SIZE && s.queue != [] then GetMore else EndBatch
    case _ => if s.queue != [] then GetFirst else PutStop
  }

  lemma NextIsPossible(s: State, retain: nat)
    requires QueueInv(s) && s.closed && !s.writer.Exited?
    ensures Enabled(s, NextStep(s))
    ensures var t := Apply(s, NextStep(s), retain);
            t.closed && t.accepted == s.accepted && Left(t) < Left(s)
  {
    hide Trimmed, Inserted, Rows, StopLast;
    if s.writer.Idle? && s.queue == [] {
      assert s.batch + s.queue == [];
    }
  }

  /** From every state of a closed store the writer can go on to its exit, with every accepted row processed. */
  lemma {:induction false} WriterFinishes(s: State, retain: nat) returns (steps: seq<Step>)
    requires Inv(s, retain) && s.closed
    ensures Run(s, steps, retain).Some?
    ensures var t := Run(s, steps, retain).value;
            t.writer.Exited? && t.accepted == s.accepted && t.processed == s.accepted
    decreases Left(s)
  {
    if s.writer.Exited? {
      steps := [];
      hide Rows, Interleaves, TableInv;
      InvAccounts(s, retain);
    } else {
      hide Apply, Enabled, Run, NextStep, Inv;
      QueueIsSound(s, retain);
      NextIsPossible(s, retain);
      StepKeepsInv(s, NextStep(s), retain);
      var rest := WriterFinishes(Apply(s, NextStep(s), retain), retain);
      RunFromFirst(s, NextStep(s), rest, retain);
      steps := [NextStep(s)] + rest;
    }
  }

  /** Closing is always possible and always ends: from every state of a run, whether open or closed, the
      store can be closed and the writer go on to its exit with every accepted row processed. */
  lemma CloseCompletes(s: State, retain: nat) returns (steps: seq<Step>)
    requires Inv(s, retain)
    ensures Run(s, [BeginClose] + steps, retain).Some?
    ensures var t := Run(s, [BeginClose] + steps, retain).value;
            t.closed && t.writer.Exited? && t.accepted == s.accepted && t.processed == s.accepted
  {
    var t := Apply(s, BeginClose, retain);
    assert Enabled(s, BeginClose) && t.closed && t.accepted == s.accepted;
    hide Apply, Enabled, Run, Inv;
    StepKeepsInv(s, BeginClose, retain);
    steps := WriterFinishes(t, retain);
    RunFromFirst(s, BeginClose, steps, retain);
    StaysClosed(t, steps, retain);
  }

  lemma {:induction false} StaysClosed(s: State, steps: seq<Step>, retain: nat)
    requires s.closed && Run(s, steps, retain).Some?
    ensures Run(s, steps, retain).value.closed && Run(s, steps, retain).value.accepted == s.accepted
  {
    if steps != [] {
      hide Trimmed, Inserted, Rows;
      StaysClosed(s, steps[..|steps| - 1], retain);
    }
  }

  // ----- Row ids

  lemma {:induction false} InsertedIds(table: seq<Stored>, rows: seq<Row>)
    ensures |Inserted(table, rows)| == |table| + |rows| && Inserted(table, rows)[..|table|] == table
    ensures forall k :: |table| <= k < |table| + |rows| ==> Inserted(table, rows)[k].id == NextId(table) + (k - |table|)
  {
    if rows != [] {
      InsertedIds(table, rows[..|rows| - 1]);
    }
  }

  /** The last `n` rows of the table are numbered up to `next`, without a gap. */
  ghost predicate NumberedTo(table: seq<Stored>, n: nat, next: int) {
    && (n > 0 ==> table != [])
    && forall k :: 0 <= k < |table| && |table| - n <= k ==> table[k].id == next - (|table| - k)
  }

  lemma InsertedNumbered(table: seq<Stored>, n: nat, next: int, rows: seq<Row>)
    requires NumberedTo(table, n, next) && NextId(table) == next
    ensures NumberedTo(Inserted(table, rows), n + |rows|, next + |rows|) && NextId(Inserted(table, rows)) == next + |rows|
  {
    hide Inserted, NextId;
    InsertedIds(table, rows);
    var all := Inserted(table, rows);
    forall k | 0 <= k < |all| && |all| - (n + |rows|) <= k ensures all[k].id == next + |rows| - (|all| - k) {
      if k < |table| {
        assert all[k] == all[..|table|][k];
      }
    }
    NextFollows(all);
    NextFollows(table);
  }

  lemma NextFollows(table: seq<Stored>)
    ensures NextId(table) == if table == [] then 1 else table[|table| - 1].id + 1
  {
  }

  lemma TrimmedNumbered(table: seq<Stored>, n: nat, next: int, retain: nat)
    requires Increasing(table) && NumberedTo(table, n, next) && NextId(table) == next && retain > 0
    ensures NumberedTo(Trimmed(table, retain), n, next) && NextId(Trimmed(table, retain)) == next
  {
    TrimmedKeepsNewest(table, retain);
  }

  lemma StepNumbers(start: State, s: State, e: Step, retain: nat)
    requires Enabled(s, e) && Inv(s, retain) && retain > 0
    requires NextId(s.table) == NextId(start.table) + |s.inserted| && NumberedTo(s.table, |s.inserted|, NextId(s.table))
    ensures var t := Apply(s, e, retain);
            NextId(t.table) == NextId(start.table) + |t.inserted| && NumberedTo(t.table, |t.inserted|, NextId(t.table))
  {
    hide Rows, Inserted, Trimmed, NumberedTo, NextId, QueueInv, RowsInv;
    if e.Commit? && Rows(s.batch) != [] {
      var rows := Rows(s.batch);
      InsertedAppends(s.table, rows);
      InsertedNumbered(s.table, |s.inserted|, NextId(s.table), rows);
      TrimmedNumbered(Inserted(s.table, rows), |s.inserted| + |rows|, NextId(s.table) + |rows|, retain);
    } else {
      assert Apply(s, e, retain).table == s.table && |Apply(s, e, retain).inserted| == |s.inserted|;
    }
  }

  /** While any rows are retained, the rows inserted by a run are numbered one after another from the id
      that follows the newest row of the start; trimming never makes an id come again. */
  lemma {:induction false} IdsFollow(start: State, steps: seq<Step>, retain: nat)
    requires Starts(start) && Run(start, steps, retain).Some? && retain > 0
    ensures var s, first := Run(start, steps, retain).value, if start.table == [] then 1 else start.table[|start.table| - 1].id + 1;
            forall k :: 0 <= k < |s.table| && |s.table| - |s.inserted| <= k ==> s.table[k].id == first + |s.inserted| - (|s.table| - k)
  {
    RunNumbers(start, steps, retain);
  }

  lemma {:induction false} RunNumbers(start: State, steps: seq<Step>, retain: nat)
    requires Starts(start) && Run(start, steps, retain).Some? && retain > 0
    ensures var s := Run(start, steps, retain).value;
            NextId(s.table) == NextId(start.table) + |s.inserted| && NumberedTo(s.table, |s.inserted|, NextId(s.table))
  {
    if steps != [] {
      hide Apply, Enabled, Starts, Inv, NextId, NumberedTo;
      var front := steps[..|steps| - 1];
      RunNumbers(start, front, retain);
      StartsInv(start, retain);
      RunKeepsInv(start, front, retain);
      StepNumbers(start, Run(start, front, retain).value, steps[|steps| - 1], retain);
    }
  }

  lemma QueueIsSound(s: State, retain: nat)
    requires Inv(s, retain)
    ensures QueueInv(s)
  {
  }

  lemma {:induction false} ExistingStays(s: State, steps: seq<Step>, retain: nat)
    requires Run(s, steps, retain).Some?
    ensures Run(s, steps, retain).value.existing == s.existing
  {
    hide Apply, Enabled;
    if steps != [] {
      ExistingStays(s, steps[..|steps| - 1], retain);
      OneOffer(Run(s, steps[..|steps| - 1], retain).value, steps[|steps| - 1], retain);
    }
  }

  lemma StartsInv(s: State, retain: nat)
    requires Starts(s)
    ensures Inv(s, retain)
  {
    assert s.batch + s.queue == [] && s.Ever() == s.existing;
  }

  // ----- What every run promises

  /** Every row emitted while open was dropped, failed, is queued or in the batch, or was
      inserted.  The rows taken through a transaction are the first accepted ones, and the
      inserted and the failed ones among them each keep their order.  Once the writer has exited
      every accepted row has been through a transaction. */
  lemma NothingIsLost(start: State, steps: seq<Step>, retain: nat)
    requires Starts(start) && Run(start, steps, retain).Some?
    ensures var s := Run(start, steps, retain).value;
            && s.offers == OpenEmits(start, steps, retain) && Interleaves(s.accepted, s.droppedRows, s.offers)
            && s.accepted == EmitsWith(start, steps, retain, false) && s.droppedRows == EmitsWith(start, steps, retain, true)
            && |s.queue| <= 4096 && |s.batch| <= 128
            && |s.offers| == s.dropped + s.failed + |s.inserted| + |Rows(s.batch)| + |Rows(s.queue)|
            && s.accepted == s.processed + Rows(s.batch) + Rows(s.queue)
            && Interleaves(s.inserted, s.failedRows, s.processed) && s.failed == |s.failedRows|
            && multiset(s.processed) == multiset(s.inserted) + multiset(s.failedRows)
            && (s.writer.Exited? ==> s.closed && s.accepted == s.processed)
            && (Stop in s.queue ==> s.queue[|s.queue| - 1] == Stop)
  {
    assert start.offers == [] && start.accepted == [] && start.droppedRows == [];
    hide Run, Inv, Starts, Rows, Interleaves, OpenEmits, EmitsWith;
    DroppedWhenFull(start, steps, retain);
    OffersAreEmits(start, steps, retain);
    StartsInv(start, retain);
    RunKeepsInv(start, steps, retain);
    InvAccounts(Run(start, steps, retain).value, retain);
  }

  lemma InvAccounts(s: State, retain: nat)
    requires Inv(s, retain)
    ensures Interleaves(s.accepted, s.droppedRows, s.offers)
    ensures |s.offers| == s.dropped + s.failed + |s.inserted| + |Rows(s.batch)| + |Rows(s.queue)|
    ensures s.accepted == s.processed + Rows(s.batch) + Rows(s.queue)
    ensures Interleaves(s.inserted, s.failedRows, s.processed) && s.failed == |s.failedRows|
    ensures multiset(s.processed) == multiset(s.inserted) + multiset(s.failedRows)
    ensures s.writer.Exited? ==> s.closed && s.accepted == s.processed
    ensures Stop in s.queue ==> s.queue[|s.queue| - 1] == Stop
    ensures |s.queue| <= 4096 && |s.batch| <= 128
  {
    hide TableInv, StopLast, Interleaves;
    InterleavesCounts(s.inserted, s.failedRows, s.processed);
    InterleavesCounts(s.accepted, s.droppedRows, s.offers);
    RowsOne(Stop);
    BatchEnds(s);
    StopIsLast(s.queue);
    assert [] + s.queue == s.queue;
  }

  lemma StopIsLast(items: seq<Item>)
    requires StopLast(items)
    ensures Stop in items ==> items[|items| - 1] == Stop
  {
  }

  /** Once anything was inserted, the table holds exactly the newest rows there ever were,
      at most the retained number, in increasing id order; they are rows that were there at the
      start and accepted rows whose transaction succeeded, in the order of acceptance. */
  lemma TableIsNewest(start: State, steps: seq<Step>, retain: nat)
    requires Starts(start) && Run(start, steps, retain).Some?
    ensures var s := Run(start, steps, retain).value;
            var all := s.Ever();
            && Increasing(s.table)
            && (s.inserted != [] ==> Content(s.table) == if |all| <= retain then all else all[|all| - retain..])
            && all == start.existing + s.inserted
            && Interleaves(s.inserted, s.failedRows, s.processed) && s.processed <= s.accepted
  {
    hide Run, Starts, Interleaves;
    ExistingStays(start, steps, retain);
    StartsInv(start, retain);
    RunKeepsInv(start, steps, retain);
  }
}
