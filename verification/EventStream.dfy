/**
 One client's event stream of a benchmark run, beside the run that produces the events.
 The stream subscribes, replays a snapshot of the history, then follows its live queue.
 An event is stored first and published later: appended to the history and to every
 queue in one step.  A run of the model is any interleaving of enabled steps.
 */
module EventStream {
  import opened Wrappers

  datatype Event = Event(sequence: nat, terminal: bool, data: string)

  /** `Replaying(count, index)`: the snapshot holds `count` events, `index` of them are done. */
  datatype Phase = Idle | Subscribed | Replaying(count: nat, index: nat) | Live | Done

  /**
   `log` is the stored history and `log[..published]` the history in memory.
   `queue` is absent when the run was over at subscription.  `fed` counts the events
   published before the queue was closed or dropped, `head` those before the queue's front.
   */
  datatype State = State(
    log: seq<Event>,
    published: nat,
    closed: bool,
    recovered: bool,
    phase: Phase,
    queue: Option<seq<Option<Event>>>,
    listening: bool,
    head: nat,
    fed: nat,
    last: int,
    out: seq<Event>)

  function Start(cursor: int): State {
    State([], 0, false, false, Idle, None, false, 0, 0, cursor, [])
  }

  datatype Step =
    | Store(terminal: bool, data: string)
    | Publish
    | Close                  // after the terminal event, or because it could not be stored
    | Recover(data: string)  // an interrupted run gets its terminal event in storage only
    | Subscribe
    | Snapshot(count: nat)   // the history in memory or in storage, read at any later time
    | Replay
    | Receive

  predicate Over(log: seq<Event>) {
    log != [] && log[|log| - 1].terminal
  }

  predicate Enabled(s: State, e: Step) {
    match e
    case Store(_, _) => !s.closed && s.published == |s.log| && !Over(s.log)
    case Publish => !s.closed && s.published < |s.log|
    case Close => !s.closed && s.published == |s.log|
    case Recover(_) => s.closed && !Over(s.log)
    case Subscribe => s.phase.Idle? && s.published <= |s.log| && (s.closed ==> Over(s.log))
    case Snapshot(n) => s.phase.Subscribed? && s.head <= n <= |s.log|
    case Replay => s.phase.Replaying? && s.phase.count <= |s.log| && s.phase.index <= s.phase.count
    case Receive => s.phase.Live? && s.queue.Some? && s.queue.value != []
  }

  function Put(s: State, item: Option<Event>): State {
    if s.listening && s.queue.Some? then s.(queue := Some(s.queue.value + [item])) else s
  }

  function Deliver(s: State, event: Event): State {
    var t := s.(out := s.out + [event], last := event.sequence);
    if event.terminal then Finish(t) else t
  }

  /** The stream returns and unsubscribes. */
  function Finish(s: State): State {
    s.(phase := Done, queue := None, listening := false)
  }

  function Apply(cursor: int, s: State, e: Step): State
    requires Enabled(s, e)
  {
    match e
    case Store(terminal, data) => s.(log := s.log + [Event(|s.log|, terminal, data)])
    case Publish =>
      var t := Put(s, Some(s.log[s.published]));
      t.(published := s.published + 1, fed := if s.listening then s.published + 1 else s.fed)
    case Close => Put(s, None).(closed := true, listening := false)
    case Recover(data) =>
      s.(log := s.log + [Event(|s.log|, true, data)], published := |s.log| + 1, recovered := true)
    case Subscribe =>
      var over := Over(s.log[..s.published]);
      s.(phase := Subscribed, queue := if over then None else Some([]), listening := !over,
         head := s.published, fed := s.published)
    case Snapshot(n) => s.(phase := Replaying(n, 0))
    case Replay =>
      if s.phase.index == s.phase.count then
        if s.queue.None? then Finish(s) else s.(phase := Live)
      else
        var event := s.log[s.phase.index];
        var t := s.(phase := Replaying(s.phase.count, s.phase.index + 1));
        if event.sequence <= cursor then t else Deliver(t, event)
    case Receive =>
      var item, t := s.queue.value[0], s.(queue := Some(s.queue.value[1..]), head := s.head + 1);
      if item.None? then Finish(s)
      else if item.value.sequence <= s.last then t
      else Deliver(t, item.value)
  }

  ghost function Run(cursor: int, s: State, steps: seq<Step>): Option<State> {
    if steps == [] then Some(s)
    else
      match Run(cursor, s, steps[..|steps| - 1])
      case None => None
      case Some(t) => if Enabled(t, steps[|steps| - 1]) then Some(Apply(cursor, t, steps[|steps| - 1])) else None
  }

  // ----- What the client is owed -----

  /** The events after the cursor, in order. */
  function After(log: seq<Event>, cursor: int): seq<Event> {
    if log == [] then [] else
      var event := log[|log| - 1];
      After(log[..|log| - 1], cursor) + if event.sequence > cursor then [event] else []
  }

  ghost predicate Sequenced(log: seq<Event>) {
    forall i :: 0 <= i < |log| ==> log[i].sequence == i && (log[i].terminal ==> i == |log| - 1)
  }

  function Min(a: int, b: int): int {
    if a < b then a else b
  }

  lemma DropAppend(front: seq<Event>, last: Event, k: nat)
    requires k <= |front|
    ensures (front + [last])[k..] == front[k..] + [last]
  {
    var long := (front + [last])[k..];
    assert forall i :: 0 <= i < |front| - k ==> long[i] == (front + [last])[k + i] == front[k..][i];
  }

  lemma {:induction false} AfterIsSuffix(log: seq<Event>, cursor: int)
    requires Sequenced(log) && -1 <= cursor
    ensures After(log, cursor) == log[Min(cursor + 1, |log|)..]
  {
    if log != [] {
      var front := log[..|log| - 1];
      forall i | 0 <= i < |front| ensures front[i].sequence == i && !front[i].terminal {
        assert front[i] == log[i];
      }
      AfterIsSuffix(front, cursor);
      var last := log[|log| - 1];
      assert last.sequence == |front|;
      assert log == front + [last];
      if cursor < |front| {
        DropAppend(front, last, cursor + 1);
      } else {
        assert front[|front|..] == [] && log[|log|..] == [];
      }
    }
  }

  // ----- The invariant -----

  /** Nothing but what follows the cursor, each once, up to the last sequence number. */
  ghost predicate Delivered(s: State, cursor: int) {
    && -1 <= cursor <= s.last && (s.last == cursor || s.last < |s.log|)
    && s.out == if s.last == cursor then [] else s.log[cursor + 1..s.last + 1]
  }

  ghost predicate RunInv(s: State) {
    && Sequenced(s.log) && s.published <= |s.log| <= s.published + 1
    && (s.closed ==> s.published == |s.log|)
    && (s.recovered ==> s.closed && Over(s.log))
  }

  ghost predicate Waiting(s: State) {
    && s.queue.Some? && s.head <= s.fed <= s.published <= |s.log|
    && (s.listening ==> s.fed == s.published && !s.closed)
    && (!s.listening ==> s.closed)
    && (!s.listening ==> if s.recovered then s.fed < |s.log| else s.fed == |s.log|)
    && |s.queue.value| == s.fed - s.head + (if s.listening then 0 else 1)
    && (forall k :: 0 <= k < s.fed - s.head ==> s.queue.value[k] == Some(s.log[s.head + k]))
    && (!s.listening ==> s.queue.value[s.fed - s.head] == None)
  }

  /** Without a queue the run was over: the history is complete. */
  ghost predicate Following(s: State) {
    if s.queue.Some? then Waiting(s)
    else s.head == s.fed == s.published == |s.log| && Over(s.log) && !s.listening
  }

  ghost predicate Attached(phase: Phase) {
    phase.Subscribed? || phase.Replaying? || phase.Live?
  }

  /** Where the stream stands, and that nothing before that place is still owed. */
  ghost predicate Place(s: State, cursor: int) {
    match s.phase
    case Idle => s.last == cursor
    case Subscribed => s.last == cursor
    case Replaying(n, i) =>
      && i <= n <= |s.log| && s.head <= n && NoTerminal(s.out)
      && s.last == (if i - 1 > cursor then i - 1 else cursor)
    case Live => s.queue.Some? && s.head <= s.last + 1 && NoTerminal(s.out)
    case Done => Complete(s)
  }

  ghost predicate Inv(s: State, cursor: int) {
    && RunInv(s) && Delivered(s, cursor) && Place(s, cursor)
    && if Attached(s.phase) then Following(s) else s.queue.None? && !s.listening
  }

  ghost predicate NoTerminal(out: seq<Event>) {
    forall k :: 0 <= k < |out| ==> !out[k].terminal
  }

  /** A finished stream ended on the terminal event, or delivered all there was when the queue was closed. */
  ghost predicate Complete(s: State) {
    || (s.out != [] && s.out[|s.out| - 1].terminal && NoTerminal(s.out[..|s.out| - 1]))
    || (NoTerminal(s.out) && s.closed && s.fed <= s.last + 1 && (!s.recovered ==> s.fed == |s.log|))
    || (NoTerminal(s.out) && Over(s.log) && |s.log| <= s.last + 1)
  }

  // ----- Every step keeps it -----

  /** Storing, publishing, closing and recovering leave what was delivered as it is. */
  lemma LogGrows(s: State, t: State, cursor: int)
    requires Delivered(s, cursor) && |s.log| <= |t.log| && s.log == t.log[..|s.log|]
    requires t.out == s.out && t.last == s.last
    ensures Delivered(t, cursor)
  {
    if s.last != cursor {
      assert t.log[cursor + 1..s.last + 1] == s.log[cursor + 1..s.last + 1];
    }
  }

  lemma StoreKeepsInv(cursor: int, s: State, e: Step)
    requires Inv(s, cursor) && e.Store? && Enabled(s, e)
    ensures Inv(Apply(cursor, s, e), cursor)
  {
    hide NoTerminal, Delivered, Sequenced;
    var t := Apply(cursor, s, e);
    LogStaysSequenced(s.log, e.terminal, e.data);
    assert t.log[..|s.log|] == s.log;
    LogGrows(s, t, cursor);
  }

  lemma LogStaysSequenced(log: seq<Event>, terminal: bool, data: string)
    requires Sequenced(log) && !Over(log)
    ensures Sequenced(log + [Event(|log|, terminal, data)])
  {
  }

  lemma PublishKeepsInv(cursor: int, s: State)
    requires Inv(s, cursor) && Enabled(s, Publish)
    ensures Inv(Apply(cursor, s, Publish), cursor)
  {
    hide NoTerminal, Delivered, Sequenced;
    LogGrows(s, Apply(cursor, s, Publish), cursor);
  }

  lemma CloseKeepsInv(cursor: int, s: State)
    requires Inv(s, cursor) && Enabled(s, Close)
    ensures Inv(Apply(cursor, s, Close), cursor)
  {
    hide NoTerminal, Delivered, Sequenced;
    LogGrows(s, Apply(cursor, s, Close), cursor);
  }

  lemma RecoverKeepsInv(cursor: int, s: State, e: Step)
    requires Inv(s, cursor) && e.Recover? && Enabled(s, e)
    ensures Inv(Apply(cursor, s, e), cursor)
  {
    hide NoTerminal, Delivered, Sequenced;
    var t := Apply(cursor, s, e);
    LogStaysSequenced(s.log, true, e.data);
    assert t.log[..|s.log|] == s.log;
    LogGrows(s, t, cursor);
  }

  /** The next event of the log goes out. */
  lemma DeliverNext(cursor: int, s: State)
    requires Sequenced(s.log) && Delivered(s, cursor) && NoTerminal(s.out) && -1 <= s.last < |s.log| - 1
    ensures var t := Deliver(s, s.log[s.last + 1]);
            && t.last == s.last + 1 > cursor && Delivered(t, cursor)
            && (s.log[s.last + 1].terminal ==> Complete(t))
            && (!s.log[s.last + 1].terminal ==> NoTerminal(t.out))
  {
    hide NoTerminal, Sequenced;
    var next := s.log[s.last + 1];
    SequencedHere(s.log, s.last + 1);
    SliceGrows(s.log, cursor + 1, s.last + 1);
    NoTerminalGrows(s.out, next);
  }

  lemma SliceGrows(log: seq<Event>, a: nat, b: nat)
    requires a <= b < |log|
    ensures log[a..b] + [log[b]] == log[a..b + 1]
  {
  }

  lemma NoTerminalGrows(out: seq<Event>, next: Event)
    requires NoTerminal(out)
    ensures (out + [next])[..|out|] == out
    ensures !next.terminal ==> NoTerminal(out + [next])
  {
  }

  lemma DelivererKeeps(s: State, event: Event)
    requires RunInv(s)
    ensures RunInv(Deliver(s, event))
    ensures event.terminal ==> Deliver(s, event) == Finish(s.(out := s.out + [event], last := event.sequence))
    ensures !event.terminal ==> Deliver(s, event) == s.(out := s.out + [event], last := event.sequence)
  {
    hide Sequenced;
  }

  lemma SubscribeKeepsInv(cursor: int, s: State)
    requires Inv(s, cursor) && Enabled(s, Subscribe)
    ensures Inv(Apply(cursor, s, Subscribe), cursor)
  {
    hide NoTerminal;
    assert Over(s.log[..s.published]) ==> s.log[s.published - 1].terminal;
    assert s.published == |s.log| ==> s.log[..s.published] == s.log;
  }

  lemma SnapshotKeepsInv(cursor: int, s: State, e: Step)
    requires Inv(s, cursor) && e.Snapshot? && Enabled(s, e)
    ensures Inv(Apply(cursor, s, e), cursor)
  {
    hide Sequenced;
  }

  lemma ReplayKeepsInv(cursor: int, s: State)
    requires Inv(s, cursor) && Enabled(s, Replay)
    ensures Inv(Apply(cursor, s, Replay), cursor)
  {
    hide Inv, Apply, Deliver;
    if s.phase.index == s.phase.count {
      ReplayEnds(cursor, s);
    } else {
      ReplayMoves(cursor, s);
      if s.phase.index > cursor {
        ReplayDelivers(cursor, s);
      } else {
        ReplaySkips(cursor, s);
      }
    }
  }

  /** The stream after one event of the snapshot, before that event goes out. */
  function Advanced(s: State): State
    requires s.phase.Replaying?
  {
    s.(phase := Replaying(s.phase.count, s.phase.index + 1))
  }

  lemma ReplayMoves(cursor: int, s: State)
    requires Inv(s, cursor) && Enabled(s, Replay) && s.phase.index < s.phase.count
    ensures Apply(cursor, s, Replay) == if s.phase.index <= cursor then Advanced(s) else Deliver(Advanced(s), s.log[s.phase.index])
  {
    hide Deliver;
    assert s.log[s.phase.index].sequence == s.phase.index;
  }

  lemma ReplaySkips(cursor: int, s: State)
    requires Inv(s, cursor) && Enabled(s, Replay) && s.phase.index < s.phase.count && s.phase.index <= cursor
    ensures Inv(Advanced(s), cursor)
  {
    hide Delivered, NoTerminal, Sequenced, Following;
    SameDelivered(s, Advanced(s), cursor);
    SameFollowing(s, Advanced(s));
  }

  lemma ReplayDelivers(cursor: int, s: State)
    requires Inv(s, cursor) && Enabled(s, Replay) && cursor < s.phase.index < s.phase.count
    ensures Inv(Deliver(Advanced(s), s.log[s.phase.index]), cursor)
  {
    hide Delivered, NoTerminal, Sequenced, Following, Deliver;
    var t := Advanced(s);
    SameDelivered(s, t, cursor);
    SameFollowing(s, t);
    CursorIsValid(s, cursor);
    hide Inv;
    DeliverKeepsInv(cursor, t);
  }

  lemma CursorIsValid(s: State, cursor: int)
    requires Inv(s, cursor)
    ensures -1 <= cursor
  {
  }

  lemma ReplayEnds(cursor: int, s: State)
    requires Inv(s, cursor) && Enabled(s, Replay) && s.phase.index == s.phase.count
    ensures Inv(Apply(cursor, s, Replay), cursor)
  {
    hide Delivered, NoTerminal, Sequenced;
    SameDelivered(s, Finish(s), cursor);
    SameDelivered(s, s.(phase := Live), cursor);
  }

  /** Delivering the event at the stream's place keeps the invariant. */
  lemma DeliverKeepsInv(cursor: int, s: State)
    requires RunInv(s) && Delivered(s, cursor) && NoTerminal(s.out) && -1 <= s.last < |s.log| - 1 && Following(s)
    requires (s.phase.Replaying? && s.phase.index == s.last + 2 <= s.phase.count <= |s.log| && s.head <= s.phase.count)
          || (s.phase.Live? && s.queue.Some? && s.head == s.last + 2)
    ensures Inv(Deliver(s, s.log[s.last + 1]), cursor)
  {
    hide Delivered, NoTerminal, Sequenced, Following, Complete, Deliver;
    var next := s.log[s.last + 1];
    SequencedHere(s.log, s.last + 1);
    DeliverNext(cursor, s);
    DelivererKeeps(s, next);
    if !next.terminal {
      SameFollowing(s, Deliver(s, next));
    }
  }

  lemma SequencedHere(log: seq<Event>, i: nat)
    requires Sequenced(log) && i < |log|
    ensures log[i].sequence == i
  {
  }

  lemma SameDelivered(s: State, t: State, cursor: int)
    requires t.log == s.log && t.out == s.out && t.last == s.last
    ensures Delivered(s, cursor) ==> Delivered(t, cursor)
  {
  }

  lemma SameFollowing(s: State, t: State)
    requires t == s.(phase := t.phase, out := t.out, last := t.last)
    ensures Following(s) ==> Following(t)
  {
  }

  lemma ReceiveKeepsInv(cursor: int, s: State)
    requires Inv(s, cursor) && Enabled(s, Receive)
    ensures Inv(Apply(cursor, s, Receive), cursor)
  {
    hide Delivered, NoTerminal, Complete;
    if s.head == s.fed {
      ReceiveEnds(cursor, s);
    } else {
      ReceiveMoves(cursor, s);
    }
  }

  /** The queue was closed: the stream ends. */
  lemma ReceiveEnds(cursor: int, s: State)
    requires Inv(s, cursor) && Enabled(s, Receive) && s.head == s.fed
    ensures Inv(Apply(cursor, s, Receive), cursor)
  {
    hide Delivered, NoTerminal, Sequenced;
    SameDelivered(s, Finish(s), cursor);
  }

  lemma ReceiveMoves(cursor: int, s: State)
    requires Inv(s, cursor) && Enabled(s, Receive) && s.head < s.fed
    ensures Inv(Apply(cursor, s, Receive), cursor)
  {
    hide Delivered, NoTerminal, Sequenced, Complete, Deliver;
    var t := s.(queue := Some(s.queue.value[1..]), head := s.head + 1);
    FrontTaken(s, t);
    SameDelivered(s, t, cursor);
    hide Waiting;
    if s.head > s.last {
      DeliverKeepsInv(cursor, t);
    }
  }

  lemma FrontTaken(s: State, t: State)
    requires Waiting(s) && s.head < s.fed && t == s.(queue := Some(s.queue.value[1..]), head := s.head + 1)
    requires Sequenced(s.log)
    ensures Waiting(t) && s.queue.value[0] == Some(s.log[s.head]) && s.log[s.head].sequence == s.head
  {
  }

  lemma StepKeepsInv(cursor: int, s: State, e: Step)
    requires Inv(s, cursor) && Enabled(s, e)
    ensures Inv(Apply(cursor, s, e), cursor)
  {
    hide Inv, Enabled, Apply;
    match e
    case Store(_, _) => StoreKeepsInv(cursor, s, e);
    case Publish => PublishKeepsInv(cursor, s);
    case Close => CloseKeepsInv(cursor, s);
    case Recover(_) => RecoverKeepsInv(cursor, s, e);
    case Subscribe => SubscribeKeepsInv(cursor, s);
    case Snapshot(_) => SnapshotKeepsInv(cursor, s, e);
    case Replay => ReplayKeepsInv(cursor, s);
    case Receive => ReceiveKeepsInv(cursor, s);
  }

  lemma {:induction false} RunKeepsInv(cursor: int, steps: seq<Step>)
    requires -1 <= cursor && Run(cursor, Start(cursor), steps).Some?
    ensures Inv(Run(cursor, Start(cursor), steps).value, cursor)
  {
    if steps != [] {
      RunKeepsInv(cursor, steps[..|steps| - 1]);
      StepKeepsInv(cursor, Run(cursor, Start(cursor), steps[..|steps| - 1]).value, steps[|steps| - 1]);
    }
  }

  // ----- Results -----

  /** In every run the client has a prefix of the events after its cursor: each once, in
      order, without a gap.  A terminal event is the last one and ends the stream; a stream
      that waits on an empty queue has delivered every published event. */
  lemma ExactlyOnce(cursor: int, steps: seq<Step>)
    requires -1 <= cursor && Run(cursor, Start(cursor), steps).Some?
    ensures var s := Run(cursor, Start(cursor), steps).value;
            && s.out <= After(s.log, cursor)
            && (forall k :: 0 <= k < |s.out| && s.out[k].terminal ==> k == |s.out| - 1 && s.phase.Done?)
            && s.published <= |s.log|
            && (s.phase.Live? && s.queue == Some([]) ==> After(s.log[..s.published], cursor) <= s.out)
  {
    hide Run;
    RunKeepsInv(cursor, steps);
    var s := Run(cursor, Start(cursor), steps).value;
    AfterIsSuffix(s.log, cursor);
    if s.phase.Live? && s.queue == Some([]) {
      assert Sequenced(s.log[..s.published]);
      AfterIsSuffix(s.log[..s.published], cursor);
    }
  }

  /** What the stream still does on its own. */
  function Drain(cursor: int, s: State): State
    decreases if s.phase.Replaying? then 1 else 0,
              if s.phase.Replaying? then s.phase.count - s.phase.index else if s.queue.Some? then |s.queue.value| else 0
  {
    if s.phase.Replaying? && Enabled(s, Replay) then Drain(cursor, Apply(cursor, s, Replay))
    else if s.phase.Live? && Enabled(s, Receive) then Drain(cursor, Apply(cursor, s, Receive))
    else s
  }

  /** The stream's own steps change nothing of the run and are always possible once it is closed. */
  lemma OwnStep(cursor: int, s: State, e: Step)
    requires Inv(s, cursor) && ((s.phase.Replaying? && e == Replay) || (s.phase.Live? && e == Receive))
    ensures s.closed ==> Enabled(s, e)
    ensures Enabled(s, e) ==>
      var t := Apply(cursor, s, e);
      && t.log == s.log && t.closed == s.closed && t.recovered == s.recovered
      && (t.phase.Replaying? || t.phase.Live? || t.phase.Done?)
      && (s.phase.Replaying? ==> s.phase.index <= s.phase.count)
      && (t.phase.Done? && s.phase.Live? ==> t.queue.None? && s.queue.Some? && s.queue.value != [])
      && (t.phase.Replaying? ==> s.phase.Replaying? && t.phase.index <= t.phase.count && t.phase.count - t.phase.index == s.phase.count - s.phase.index - 1)
      && (t.phase.Live? && s.phase.Live? ==> t.queue.Some? && s.queue.Some? && |t.queue.value| < |s.queue.value|)
  {
    hide Delivered, NoTerminal, Sequenced;
  }

  lemma {:induction false} DrainKeepsInv(cursor: int, s: State)
    requires Inv(s, cursor)
    ensures Inv(Drain(cursor, s), cursor)
    ensures Drain(cursor, s).log == s.log && Drain(cursor, s).closed == s.closed && Drain(cursor, s).recovered == s.recovered
    ensures s.closed && (s.phase.Replaying? || s.phase.Live?) ==> Drain(cursor, s).phase.Done?
    decreases if s.phase.Replaying? then 1 else 0,
              if s.phase.Replaying? then s.phase.count - s.phase.index else if s.queue.Some? then |s.queue.value| else 0
  {
    hide Inv, Enabled, Apply;
    if s.phase.Replaying? {
      OwnStep(cursor, s, Replay);
      if Enabled(s, Replay) {
        StepKeepsInv(cursor, s, Replay);
        DrainKeepsInv(cursor, Apply(cursor, s, Replay));
      }
    } else if s.phase.Live? {
      OwnStep(cursor, s, Receive);
      if Enabled(s, Receive) {
        StepKeepsInv(cursor, s, Receive);
        DrainKeepsInv(cursor, Apply(cursor, s, Receive));
      }
    }
  }

  /** The stream gets to see the whole log: it was not closed before its last event, or the
      snapshot already has that event, or the client asks for nothing. */
  predicate SeesAll(cursor: int, s: State) {
    !s.recovered || (s.phase.Replaying? && s.phase.count == |s.log|) || |s.log| <= cursor + 1
  }

  /** Once the run is closed the stream needs nobody else to end, and it has then delivered every
      event after its cursor if and only if it gets to see the whole log. */
  lemma EndsWithEverything(cursor: int, steps: seq<Step>)
    requires -1 <= cursor && Run(cursor, Start(cursor), steps).Some?
    ensures var s := Run(cursor, Start(cursor), steps).value;
            s.closed && (s.phase.Replaying? || s.phase.Live?) ==>
              var t := Drain(cursor, s);
              t.phase.Done? && (t.out == After(s.log, cursor) <==> SeesAll(cursor, s))
  {
    hide Run, Inv, Drain;
    RunKeepsInv(cursor, steps);
    var s := Run(cursor, Start(cursor), steps).value;
    InvSequenced(s, cursor);
    if s.closed && (s.phase.Replaying? || s.phase.Live?) {
      DrainKeepsInv(cursor, s);
      AfterIsSuffix(s.log, cursor);
      var t := Drain(cursor, s);
      if |s.log| <= cursor + 1 {
        NothingAsked(cursor, t);
      } else if !s.recovered {
        DoneHasAll(cursor, t);
      } else if s.phase.Replaying? && s.phase.count == |s.log| {
        DrainReplaysAll(cursor, s);
      } else {
        DrainFallsShort(cursor, s);
        LastIsMissing(cursor, t);
      }
    }
  }

  lemma NothingAsked(cursor: int, t: State)
    requires Inv(t, cursor) && |t.log| <= cursor + 1
    ensures t.out == []
  {
  }

  lemma LastIsMissing(cursor: int, t: State)
    requires Inv(t, cursor) && t.last < |t.log| - 1
    ensures t.out != t.log[cursor + 1..]
  {
    assert |t.log[cursor + 1..]| == |t.log| - (cursor + 1);
  }

  /** The replay of a snapshot of the whole log reaches its terminal event. */
  lemma {:induction false} DrainReplaysAll(cursor: int, s: State)
    requires Inv(s, cursor) && s.phase.Replaying? && s.phase.count == |s.log| && Over(s.log) && cursor + 1 < |s.log|
    ensures Drain(cursor, s).out == s.log[cursor + 1..]
    decreases s.phase.count - s.phase.index
  {
    var i := s.phase.index;
    NotYetTerminal(cursor, s);
    StepKeepsInv(cursor, s, Replay);
    ReplayMoves(cursor, s);
    var t := Apply(cursor, s, Replay);
    if i > cursor && i == |s.log| - 1 {
      WholeLog(cursor, t);
    } else {
      NotTerminalBefore(s.log, i);
      DrainReplaysAll(cursor, t);
    }
  }

  lemma NotYetTerminal(cursor: int, s: State)
    requires Inv(s, cursor) && s.phase.Replaying? && s.phase.count == |s.log| && Over(s.log) && cursor + 1 < |s.log|
    ensures s.phase.index < |s.log| && Enabled(s, Replay)
  {
    StopsShort(cursor, s);
  }

  /** Without a terminal event among the delivered ones, the last event of a finished log is still to come. */
  lemma StopsShort(cursor: int, s: State)
    requires Delivered(s, cursor) && NoTerminal(s.out) && Over(s.log) && cursor + 1 < |s.log|
    ensures s.last < |s.log| - 1
  {
    assert s.last > cursor ==> forall k :: cursor + 1 <= k < s.last + 1 ==> s.log[k] == s.out[k - (cursor + 1)];
  }

  lemma NotTerminalBefore(log: seq<Event>, i: nat)
    requires Sequenced(log) && i < |log| - 1
    ensures !log[i].terminal
  {
  }

  lemma WholeLog(cursor: int, t: State)
    requires Inv(t, cursor) && t.phase.Done? && t.last == |t.log| - 1 > cursor
    ensures Drain(cursor, t).out == t.log[cursor + 1..]
  {
    assert t.log[cursor + 1..|t.log|] == t.log[cursor + 1..];
  }

  /** The terminal event is neither in the snapshot nor in the queue. */
  ghost predicate Short(s: State) {
    && s.last < |s.log| - 1 && s.fed < |s.log|
    && (s.phase.Replaying? ==> s.phase.count < |s.log|)
    && (Attached(s.phase) ==> s.queue.Some?)
  }

  lemma {:induction false} DrainStaysShort(cursor: int, s: State)
    requires Inv(s, cursor) && Short(s)
    ensures Drain(cursor, s).last < |s.log| - 1
    decreases if s.phase.Replaying? then 1 else 0,
              if s.phase.Replaying? then s.phase.count - s.phase.index else if s.queue.Some? then |s.queue.value| else 0
  {
    hide Inv, Apply;
    if s.phase.Replaying? && Enabled(s, Replay) {
      OwnStep(cursor, s, Replay);
      StepKeepsInv(cursor, s, Replay);
      StepStaysShort(cursor, s, Replay);
      DrainStaysShort(cursor, Apply(cursor, s, Replay));
    } else if s.phase.Live? && Enabled(s, Receive) {
      OwnStep(cursor, s, Receive);
      StepKeepsInv(cursor, s, Receive);
      StepStaysShort(cursor, s, Receive);
      DrainStaysShort(cursor, Apply(cursor, s, Receive));
    }
  }

  lemma StepStaysShort(cursor: int, s: State, e: Step)
    requires Inv(s, cursor) && Short(s) && Enabled(s, e) && (e == Replay || e == Receive)
    ensures Short(Apply(cursor, s, e))
  {
    hide Delivered, NoTerminal;
  }

  lemma DrainFallsShort(cursor: int, s: State)
    requires Inv(s, cursor) && s.closed && s.recovered && cursor + 1 < |s.log|
    requires s.phase.Live? || (s.phase.Replaying? && s.phase.count < |s.log|)
    ensures Drain(cursor, s).last < |s.log| - 1
  {
    StopsShort(cursor, s);
    DrainStaysShort(cursor, s);
  }

  /** A run closed without its terminal event, which recovery stores too late for this stream. */
  lemma TerminalMissed(data: string) returns (s: State)
    ensures Run(-1, Start(-1), [Subscribe, Snapshot(0), Replay, Close, Recover(data), Receive]) == Some(s)
    ensures s.phase.Done? && s.out == [] && s.log == [Event(0, true, data)] && After(s.log, -1) == s.log
  {
    var begin, log := Start(-1), [Event(0, true, data)];
    var live := begin.(phase := Live, queue := Some([]), listening := true);
    var ended := live.(listening := false, closed := true, queue := Some([None]));
    var recovered := ended.(log := log, published := 1, recovered := true);
    s := Finish(recovered);
    hide Run, Apply, Enabled;
    var three := GoesLive(begin, live);
    ClosesEmpty(live, ended);
    Extend(-1, begin, three, live, Close, ended);
    var four := three + [Close];
    RecoversEmpty(ended, recovered, data);
    Extend(-1, begin, four, ended, Recover(data), recovered);
    var five := four + [Recover(data)];
    EndsEmpty(recovered);
    Extend(-1, begin, five, recovered, Receive, s);
    assert five + [Receive] == [Subscribe, Snapshot(0), Replay, Close, Recover(data), Receive];
    assert log[..0] == [] && After([], -1) == [];
  }

  lemma GoesLive(begin: State, live: State) returns (steps: seq<Step>)
    requires begin == Start(-1) && live == begin.(phase := Live, queue := Some([]), listening := true)
    ensures steps == [Subscribe, Snapshot(0), Replay] && Run(-1, begin, steps) == Some(live)
  {
    var subscribed, replaying := live.(phase := Subscribed), live.(phase := Replaying(0, 0));
    assert Run(-1, begin, []) == Some(begin);
    hide Run, Apply, Enabled;
    SubscribesEmpty(begin, subscribed);
    Extend(-1, begin, [], begin, Subscribe, subscribed);
    var one := [] + [Subscribe];
    SnapsEmpty(subscribed, replaying);
    Extend(-1, begin, one, subscribed, Snapshot(0), replaying);
    var two := one + [Snapshot(0)];
    ReplaysEmpty(replaying, live);
    Extend(-1, begin, two, replaying, Replay, live);
    steps := two + [Replay];
  }

  lemma SubscribesEmpty(s: State, t: State)
    requires s == Start(-1) && t == s.(phase := Subscribed, queue := Some([]), listening := true)
    ensures Enabled(s, Subscribe) && Apply(-1, s, Subscribe) == t
  {
    assert s.log[..0] == [];
  }

  lemma SnapsEmpty(s: State, t: State)
    requires s.phase.Subscribed? && s.head == 0 && t == s.(phase := Replaying(0, 0))
    ensures Enabled(s, Snapshot(0)) && Apply(-1, s, Snapshot(0)) == t
  {
  }

  lemma ReplaysEmpty(s: State, t: State)
    requires s.phase == Replaying(0, 0) && s.queue.Some? && t == s.(phase := Live)
    ensures Enabled(s, Replay) && Apply(-1, s, Replay) == t
  {
  }

  lemma ClosesEmpty(s: State, t: State)
    requires !s.closed && s.published == |s.log| && s.listening && s.queue == Some([])
    requires t == s.(listening := false, closed := true, queue := Some([None]))
    ensures Enabled(s, Close) && Apply(-1, s, Close) == t
  {
    assert s.queue.value + [None] == [None];
  }

  lemma RecoversEmpty(s: State, t: State, data: string)
    requires s.closed && s.log == [] && t == s.(log := [Event(0, true, data)], published := 1, recovered := true)
    ensures Enabled(s, Recover(data)) && Apply(-1, s, Recover(data)) == t
  {
    assert s.log + [Event(0, true, data)] == [Event(0, true, data)];
  }

  lemma EndsEmpty(s: State)
    requires s.phase.Live? && s.queue == Some([None])
    ensures Enabled(s, Receive) && Apply(-1, s, Receive) == Finish(s)
  {
  }

  lemma Extend(cursor: int, begin: State, steps: seq<Step>, s: State, e: Step, t: State)
    requires Run(cursor, begin, steps) == Some(s) && Enabled(s, e) && Apply(cursor, s, e) == t
    ensures Run(cursor, begin, steps + [e]) == Some(t)
  {
    assert (steps + [e])[..|steps|] == steps;
  }

  /** While the run is open and the stream waits, the next event reaches the client: it is stored, published
      and delivered, unless the client asked for later ones only; a terminal one ends the stream. */
  lemma NextEventArrives(cursor: int, s: State, terminal: bool, data: string) returns (t: State)
    requires Inv(s, cursor) && s.phase.Live? && s.queue == Some([]) && !s.closed && s.published == |s.log| && !Over(s.log)
    ensures Run(cursor, s, [Store(terminal, data), Publish, Receive]) == Some(t)
    ensures var event := Event(|s.log|, terminal, data);
            && t.log == s.log + [event] && t.published == |t.log|
            && (|s.log| <= cursor ==> t.out == s.out && t.phase.Live? && t.queue == Some([]))
            && (|s.log| > cursor ==> t.out == s.out + [event])
            && (|s.log| > cursor ==> if terminal then t.phase.Done? else t.phase.Live? && t.queue == Some([]))
  {
    var event := Event(|s.log|, terminal, data);
    var stored := s.(log := s.log + [event]);
    var published := stored.(published := |stored.log|, fed := |stored.log|, queue := Some([Some(event)]));
    t := ReceivesOne(cursor, published, event);
    NextIsAsked(cursor, s);
    assert Run(cursor, s, []) == Some(s);
    PublishesOne(cursor, s, stored, published, event);
    hide Run, Apply, Enabled;
    Extend(cursor, s, [], s, Store(terminal, data), stored);
    var one := [] + [Store(terminal, data)];
    Extend(cursor, s, one, stored, Publish, published);
    Extend(cursor, s, one + [Publish], published, Receive, t);
    assert one + [Publish] + [Receive] == [Store(terminal, data), Publish, Receive];
  }

  lemma NextIsAsked(cursor: int, s: State)
    requires Inv(s, cursor) && s.phase.Live? && s.queue == Some([]) && !s.closed && s.published == |s.log|
    ensures s.listening && (|s.log| <= s.last <==> |s.log| <= cursor)
  {
  }

  lemma PublishesOne(cursor: int, s: State, stored: State, published: State, event: Event)
    requires s.queue == Some([]) && s.listening && !s.closed && s.published == |s.log| && !Over(s.log) && event.sequence == |s.log|
    requires stored == s.(log := s.log + [event])
    requires published == stored.(published := |stored.log|, fed := |stored.log|, queue := Some([Some(event)]))
    ensures Enabled(s, Store(event.terminal, event.data)) && Apply(cursor, s, Store(event.terminal, event.data)) == stored
    ensures Enabled(stored, Publish) && Apply(cursor, stored, Publish) == published
  {
    assert stored.log[stored.published] == event;
    assert stored.queue.value + [Some(event)] == [Some(event)];
  }

  lemma ReceivesOne(cursor: int, s: State, event: Event) returns (t: State)
    requires s.phase.Live? && s.queue == Some([Some(event)])
    ensures Enabled(s, Receive) && t == Apply(cursor, s, Receive) && t.log == s.log && t.published == s.published
    ensures event.sequence <= s.last ==> t.out == s.out && t.phase.Live? && t.queue == Some([])
    ensures event.sequence > s.last ==> t.out == s.out + [event]
    ensures event.sequence > s.last ==> if event.terminal then t.phase.Done? else t.phase.Live? && t.queue == Some([])
  {
    t := Apply(cursor, s, Receive);
    assert s.queue.value[1..] == [];
  }

  lemma InvSequenced(s: State, cursor: int)
    requires Inv(s, cursor)
    ensures Sequenced(s.log) && (s.recovered ==> Over(s.log)) && (s.phase.Replaying? ==> s.phase.count <= |s.log|)
  {
  }

  lemma DoneHasAll(cursor: int, t: State)
    requires Inv(t, cursor) && t.phase.Done? && t.closed && !t.recovered
    ensures t.out == t.log[Min(cursor + 1, |t.log|)..]
  {
    if t.out != [] && t.out[|t.out| - 1].terminal {
      assert t.log[t.last] == t.out[|t.out| - 1];
    }
    assert |t.log| <= t.last + 1;
    if t.last == cursor {
      assert t.log[Min(cursor + 1, |t.log|)..] == [];
    } else {
      assert t.last + 1 == |t.log|;
    }
  }
}
