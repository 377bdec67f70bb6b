/**
 The Host pipe: any number of callers and one listener thread.  Each step below is
 what happens under one hold of the lock, or one queue or flag operation outside it;
 a run is any interleaving of enabled steps.
 */
module HostRpc {
  import opened Wrappers

  type Id = string

  datatype Message = Response(request: Id, payload: string) | Unavailable

  datatype Outcome = Got(message: Message) | TimedOut | Refused

  /** A call: waiting on its queue, about to leave, or returned. */
  datatype Phase = Waiting | Leaving(outcome: Outcome) | Returned(outcome: Outcome)

  datatype Listener =
    | Reading
    | Received(message: Message)
    | Delivering(target: Id, message: Message)
    | Closing
    | Done

  /** `queues` holds the one-slot queue of every call ever made; `heard` is the history of
      what the listener read. */
  datatype State = State(calls: map<Id, Phase>, pending: set<Id>, queues: map<Id, Option<Message>>, closed: bool, listener: Listener,
                         heard: seq<Message>)

  const INITIAL := State(map[], {}, map[], false, Reading, [])

  datatype Step =
    | Register(id: Id)                          // the payload was written
    | RefuseRegister(id: Id)                    // closed, or the write failed
    | Read(request: Id, payload: string)
    | Lookup
    | Put
    | Disconnect                                // end of file, oversized line or bad message
    | Fill
    | Take(id: Id)
    | Expire(id: Id)
    | Leave(id: Id)

  predicate Enabled(s: State, e: Step) {
    match e
    case Register(i) => i !in s.calls && !s.closed
    case RefuseRegister(i) => i !in s.calls
    case Read(_, _) => s.listener.Reading?
    case Lookup => s.listener.Received?
    case Put => s.listener.Delivering? && s.listener.target in s.queues
    case Disconnect => s.listener.Reading?
    case Fill => s.listener.Closing? && s.pending <= s.queues.Keys
    case Take(i) => i in s.calls && s.calls[i].Waiting? && i in s.queues && s.queues[i].Some?
    case Expire(i) => i in s.calls && s.calls[i].Waiting? && i in s.queues && s.queues[i].None?
    case Leave(i) => i in s.calls && s.calls[i].Leaving?
  }

  /** `put_nowait` on a one-slot queue: a full queue keeps what it has. */
  function PutNowait(queue: Option<Message>, m: Message): Option<Message> {
    if queue.Some? then queue else Some(m)
  }

  function Apply(s: State, e: Step): State
    requires Enabled(s, e)
  {
    match e
    case Register(i) => s.(calls := s.calls[i := Waiting], pending := s.pending + {i}, queues := s.queues[i := None])
    case RefuseRegister(i) => s.(calls := s.calls[i := Returned(Refused)], queues := s.queues[i := None])
    case Read(i, x) => s.(listener := Received(Response(i, x)), heard := s.heard + [Response(i, x)])
    case Lookup =>
      var m := s.listener.message;
      s.(listener := if m.Response? && m.request in s.pending then Delivering(m.request, m) else Reading)
    case Put =>
      var i := s.listener.target;
      s.(queues := s.queues[i := PutNowait(s.queues[i], s.listener.message)], listener := Reading)
    case Disconnect => s.(closed := true, listener := Closing)
    case Fill =>
      s.(queues := map i | i in s.queues :: if i in s.pending then PutNowait(s.queues[i], Unavailable) else s.queues[i],
         listener := Done)
    case Take(i) => s.(calls := s.calls[i := Leaving(Got(s.queues[i].value))], queues := s.queues[i := None])
    case Expire(i) => s.(calls := s.calls[i := Leaving(TimedOut)])
    case Leave(i) => s.(calls := s.calls[i := Returned(s.calls[i].outcome)], pending := s.pending - {i})
  }

  /** The state after the steps, if each is enabled in turn. */
  ghost function Run(s: State, steps: seq<Step>): Option<State> {
    if steps == [] then Some(s)
    else
      match Run(s, steps[..|steps| - 1])
      case None => None
      case Some(t) => if Enabled(t, steps[|steps| - 1]) then Some(Apply(t, steps[|steps| - 1])) else None
  }

  /** A call may see its own response as it was read, or the disconnect error once the pipe is closed. */
  predicate Mine(s: State, i: Id, m: Message) {
    if m.Response? then m.request == i && m in s.heard else s.closed
  }

  predicate OutcomeMine(s: State, i: Id, o: Outcome) {
    o.Got? ==> Mine(s, i, o.message)
  }

  ghost predicate Inv(s: State) {
    && s.queues.Keys == s.calls.Keys
    && (forall i :: i in s.pending <==> i in s.calls && !s.calls[i].Returned?)
    && (forall i :: i in s.queues && s.queues[i].Some? ==> Mine(s, i, s.queues[i].value))
    && (forall i :: i in s.calls && !s.calls[i].Waiting? ==> OutcomeMine(s, i, s.calls[i].outcome))
    && (s.listener.Received? ==> s.listener.message.Response? && s.listener.message in s.heard)
    && (s.listener.Delivering? ==> s.listener.target in s.calls && s.listener.message.Response? && s.listener.message.request == s.listener.target
                                   && s.listener.message in s.heard)
    && (s.closed <==> s.listener.Closing? || s.listener.Done?)
    && (s.listener.Done? ==> forall i :: i in s.calls && s.calls[i].Waiting? ==> s.queues[i].Some?)
  }

  lemma StepKeepsOutcomes(s: State, e: Step)
    requires Inv(s) && Enabled(s, e)
    ensures var t := Apply(s, e);
            forall i :: i in t.calls && !t.calls[i].Waiting? ==> OutcomeMine(t, i, t.calls[i].outcome)
  {
    var t := Apply(s, e);
    forall i | i in t.calls && !t.calls[i].Waiting? ensures OutcomeMine(t, i, t.calls[i].outcome) {
      if e.Take? && e.id == i {
        assert Mine(s, i, s.queues[i].value);
      } else if i in s.calls && !s.calls[i].Waiting? {
        assert OutcomeMine(s, i, s.calls[i].outcome);
      }
    }
  }

  lemma StepKeepsInv(s: State, e: Step)
    requires Inv(s) && Enabled(s, e)
    ensures Inv(Apply(s, e))
  {
    StepKeepsOutcomes(s, e);
    hide OutcomeMine;
  }

  /** The messages of the read steps, in order. */
  function ReadIn(steps: seq<Step>): seq<Message> {
    if steps == [] then []
    else
      var last := steps[|steps| - 1];
      ReadIn(steps[..|steps| - 1]) + if last.Read? then [Response(last.request, last.payload)] else []
  }

  lemma {:induction false} HeardIsRead(s: State, steps: seq<Step>)
    requires Run(s, steps).Some?
    ensures Run(s, steps).value.heard == s.heard + ReadIn(steps)
  {
    if steps == [] {
      assert s.heard + [] == s.heard;
    } else {
      var front, last := steps[..|steps| - 1], steps[|steps| - 1];
      HeardIsRead(s, front);
      var more := if last.Read? then [Response(last.request, last.payload)] else [];
      assert (s.heard + ReadIn(front)) + more == s.heard + (ReadIn(front) + more);
    }
  }

  lemma {:induction false} RunKeepsInv(s: State, steps: seq<Step>)
    requires Inv(s) && Run(s, steps).Some?
    ensures Inv(Run(s, steps).value)
  {
    if steps != [] {
      RunKeepsInv(s, steps[..|steps| - 1]);
      StepKeepsInv(Run(s, steps[..|steps| - 1]).value, steps[|steps| - 1]);
    }
  }

  /** Every interleaving: a returned call has its own response with a payload that was read for it,
      the disconnect error of a closed pipe, or a timeout; after the listener is done no waiting call has an empty
      queue; and nothing is pending once every call has returned. */
  lemma SafeInEveryRun(steps: seq<Step>)
    requires Run(INITIAL, steps).Some?
    ensures var s := Run(INITIAL, steps).value;
            && (forall i :: i in s.calls && s.calls[i].Returned? && s.calls[i].outcome.Got? ==>
                  var m := s.calls[i].outcome.message;
                  if m.Response? then m.request == i && m in ReadIn(steps) else s.closed)
            && (s.listener.Done? ==> forall i :: i in s.calls && s.calls[i].Waiting? ==> Enabled(s, Take(i)))
            && ((forall i :: i in s.calls ==> s.calls[i].Returned?) ==> s.pending == {})
  {
    hide Apply, Run, ReadIn;
    RunKeepsInv(INITIAL, steps);
    HeardIsRead(INITIAL, steps);
    var s := Run(INITIAL, steps).value;
    assert s.heard == ReadIn(steps);
    forall i | i in s.calls && s.calls[i].Returned? && s.calls[i].outcome.Got?
      ensures var m := s.calls[i].outcome.message;
              if m.Response? then m.request == i && m in ReadIn(steps) else s.closed
    {
      assert OutcomeMine(s, i, s.calls[i].outcome);
    }
  }

  /** The call has `m` in its queue or as its outcome. */
  predicate Destined(s: State, i: Id, m: Message) {
    && i in s.calls && i in s.queues
    && match s.calls[i]
       case Waiting => s.queues[i] == Some(m)
       case Leaving(o) => o == Got(m)
       case Returned(o) => o == Got(m)
  }

  lemma DestinedStays(s: State, e: Step, i: Id, m: Message)
    requires Enabled(s, e) && Destined(s, i, m)
    ensures Destined(Apply(s, e), i, m)
  {
  }

  /** A queued message is never replaced, by the disconnect error or anything else:
      whatever follows, it is the outcome of its call. */
  lemma {:induction false} FirstQueuedWins(s: State, steps: seq<Step>, i: Id, m: Message)
    requires Destined(s, i, m) && Run(s, steps).Some?
    ensures Destined(Run(s, steps).value, i, m)
  {
    if steps != [] {
      FirstQueuedWins(s, steps[..|steps| - 1], i, m);
      DestinedStays(Run(s, steps[..|steps| - 1]).value, steps[|steps| - 1], i, m);
    }
  }

  // ----- Closing

  lemma ClosedStep(s: State, e: Step)
    requires Enabled(s, e) && s.closed
    ensures var t := Apply(s, e);
            && t.closed && t.pending <= s.pending && s.calls.Keys <= t.calls.Keys
            && forall i :: i in t.calls ==> if i in s.calls then s.calls[i] == Returned(Refused) ==> t.calls[i] == s.calls[i]
                                            else t.calls[i] == Returned(Refused)
  {
  }

  /** Once the pipe is closed it stays closed, and every later call is refused without ever being pending. */
  lemma {:induction false} ClosedRefuses(s: State, steps: seq<Step>)
    requires s.closed && Run(s, steps).Some?
    ensures var t := Run(s, steps).value;
            && t.closed && t.pending <= s.pending && s.calls.Keys <= t.calls.Keys
            && forall i :: i in t.calls && i !in s.calls ==> t.calls[i] == Returned(Refused)
  {
    if steps != [] {
      hide Apply, Enabled;
      ClosedRefuses(s, steps[..|steps| - 1]);
      ClosedStep(Run(s, steps[..|steps| - 1]).value, steps[|steps| - 1]);
    }
  }

  // ----- Responses arrive

  /** A message that was read goes to the call it names if that call is registered, and nowhere else. */
  lemma ReadIsDelivered(s: State)
    requires s.listener.Received? && s.listener.message.Response?
    ensures var m, t := s.listener.message, Apply(s, Lookup);
            t == s.(listener := if m.request in s.pending then Delivering(m.request, m) else Reading)
  {
  }

  /** Once it is put on the empty queue of a waiting call, it is the outcome of that call, whatever follows. */
  lemma DeliveredWins(s: State, steps: seq<Step>)
    requires Inv(s) && s.listener.Delivering? && s.calls[s.listener.target].Waiting? && s.queues[s.listener.target].None?
    requires Run(Apply(s, Put), steps).Some?
    ensures Destined(Run(Apply(s, Put), steps).value, s.listener.target, s.listener.message)
  {
    FirstQueuedWins(Apply(s, Put), steps, s.listener.target, s.listener.message);
  }

  lemma RunNothing(s: State)
    ensures Run(s, []) == Some(s)
  {
  }

  lemma Extend(s: State, steps: seq<Step>, t: State, e: Step)
    requires Run(s, steps) == Some(t) && Enabled(t, e)
    ensures Run(s, steps + [e]) == Some(Apply(t, e))
  {
    assert (steps + [e])[..|steps|] == steps;
  }

  /** The undisturbed way of a response: the waiting call returns with exactly its payload, is no
      longer pending, and no other call is affected. */
  lemma ResponseReturns(s: State, i: Id, x: string) returns (t: State)
    requires Inv(s) && s.listener.Reading? && i in s.calls && s.calls[i].Waiting? && s.queues[i].None?
    ensures Run(s, [Read(i, x), Lookup, Put, Take(i), Leave(i)]) == Some(t)
    ensures t.calls == s.calls[i := Returned(Got(Response(i, x)))] && t.pending == s.pending - {i}
    ensures t.queues == s.queues && t.listener.Reading? && t.closed == s.closed
  {
    assert i in s.queues && i in s.pending;
    hide Inv, Run;
    var m := Response(i, x);
    var one := Apply(s, Read(i, x));
    var two := Apply(one, Lookup);
    var three := Apply(two, Put);
    var four := Apply(three, Take(i));
    t := Apply(four, Leave(i));
    assert four.calls[i] == Leaving(Got(m)) && four.queues == s.queues;
    RunNothing(s);
    hide Apply, Enabled;
    Extend(s, [], s, Read(i, x));
    Extend(s, [] + [Read(i, x)], one, Lookup);
    Extend(s, [] + [Read(i, x)] + [Lookup], two, Put);
    Extend(s, [] + [Read(i, x)] + [Lookup] + [Put], three, Take(i));
    Extend(s, [] + [Read(i, x)] + [Lookup] + [Put] + [Take(i)], four, Leave(i));
    assert [] + [Read(i, x)] + [Lookup] + [Put] + [Take(i)] + [Leave(i)] == [Read(i, x), Lookup, Put, Take(i), Leave(i)];
  }

  /** After a disconnect a waiting call without a response returns with the disconnect error. */
  lemma DisconnectReturns(s: State, i: Id) returns (t: State)
    requires Inv(s) && s.listener.Closing? && i in s.calls && s.calls[i].Waiting? && s.queues[i].None?
    ensures Run(s, [Fill, Take(i), Leave(i)]) == Some(t)
    ensures t.calls == s.calls[i := Returned(Got(Unavailable))] && t.pending == s.pending - {i} && t.listener.Done?
  {
    assert i in s.pending && s.pending <= s.queues.Keys;
    hide Inv;
    var one := Apply(s, Fill);
    assert one.queues[i] == Some(Unavailable);
    var two := Apply(one, Take(i));
    t := Apply(two, Leave(i));
    assert Run(s, []) == Some(s);
    hide Run, Apply, Enabled;
    Extend(s, [], s, Fill);
    Extend(s, [] + [Fill], one, Take(i));
    Extend(s, [] + [Fill] + [Take(i)], two, Leave(i));
    assert [] + [Fill] + [Take(i)] + [Leave(i)] == [Fill, Take(i), Leave(i)];
  }

  /** A waiting call whose queue stays empty can give up; it returns a timeout and is no longer pending. */
  lemma TimeoutReturns(s: State, i: Id) returns (t: State)
    requires Inv(s) && i in s.calls && s.calls[i].Waiting? && s.queues[i].None?
    ensures Run(s, [Expire(i), Leave(i)]) == Some(t)
    ensures t == s.(calls := s.calls[i := Returned(TimedOut)], pending := s.pending - {i})
  {
    assert i in s.queues;
    assert Run(s, []) == Some(s);
    hide Inv, Run;
    var one := Apply(s, Expire(i));
    t := Apply(one, Leave(i));
    assert t == s.(calls := s.calls[i := Returned(TimedOut)], pending := s.pending - {i});
    hide Run, Apply, Enabled;
    Extend(s, [], s, Expire(i));
    Extend(s, [] + [Expire(i)], one, Leave(i));
    assert [] + [Expire(i)] + [Leave(i)] == [Expire(i), Leave(i)];
  }
}
