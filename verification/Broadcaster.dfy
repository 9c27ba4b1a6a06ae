/** The promoted-transaction broadcaster: a bounded queue with any number of concurrent
    enqueuers and one consumer, as interleaved atomic steps. */
module Broadcaster {
  import opened Machine

  const CAPACITY: nat := 10_000

  type Tx = Bytes

  /** One element of one `Enqueue` call: who called, which of its calls, which element. */
  datatype Ticket = Ticket(caller: nat, call: nat, index: nat, tx: Tx)

  datatype Status = Running | Returned(ok: bool)

  /** An `Enqueue` call: its input, in which `None` is a nil pointer, how much of it has
      been gone through, and whether it has returned. */
  datatype Call = Call(txs: seq<Option<Tx>>, pos: nat, status: Status)

  /** The consumer: at its select, holding a transaction just taken, waiting for the client
      context, or stopped. */
  datatype Loop =
    | Selecting
    | Taken(ticket: Ticket)
    | Waiting(ticket: Ticket)
    | Stopped

  /** A transaction the consumer is done with: handed to the client, or given up because
      there was no client context. */
  datatype Attempt = Attempt(ticket: Ticket, sent: bool)

  /** `accepted` is history: every transaction put into the queue, in that order. */
  datatype State = State(
    calls: map<nat, seq<Call>>,
    queue: seq<Ticket>,
    accepted: seq<Ticket>,
    handled: seq<Attempt>,
    loop: Loop,
    ready: bool,
    done: bool,
    closed: bool)

  const INIT := State(map[], [], [], [], Selecting, false, false, false)

  datatype Step =
    | Enqueue(caller: nat, txs: seq<Option<Tx>>)  // a call begins
    | Advance(caller: nat)                        // it goes through one element, or returns
    | Take | Stop                                 // the two cases of the loop's select
    | CheckClient                                 // the first look at the client context
    | Tick | Deadline | Abandon                   // the three cases of the wait's select
    | SetClient
    | Close | CloseReturns

  function CallsOf(s: State, caller: nat): seq<Call> {
    if caller in s.calls then s.calls[caller] else []
  }

  predicate Busy(s: State, caller: nat) {
    CallsOf(s, caller) != [] && LastCall(s, caller).status.Running?
  }

  function LastCall(s: State, caller: nat): Call
    requires CallsOf(s, caller) != []
  {
    CallsOf(s, caller)[|CallsOf(s, caller)| - 1]
  }

  function WithLast(s: State, caller: nat, c: Call): State
    requires CallsOf(s, caller) != []
  {
    var cs := CallsOf(s, caller);
    s.(calls := s.calls[caller := cs[..|cs| - 1] + [c]])
  }

  /** One turn of the loop in `Enqueue`: a nil is passed over, a full queue makes the call
      fail at once, the end of the input makes it succeed. */
  function Advanced(s: State, caller: nat): State
    requires Busy(s, caller)
  {
    var c := LastCall(s, caller);
    if c.pos >= |c.txs| then WithLast(s, caller, c.(status := Returned(true)))
    else match c.txs[c.pos]
      case None => WithLast(s, caller, c.(pos := c.pos + 1))
      case Some(tx) =>
        if |s.queue| >= CAPACITY then WithLast(s, caller, c.(status := Returned(false)))
        else
          var t := Ticket(caller, |CallsOf(s, caller)| - 1, c.pos, tx);
          WithLast(s, caller, c.(pos := c.pos + 1)).(queue := s.queue + [t], accepted := s.accepted + [t])
  }

  function Finished(s: State, sent: bool): State
    requires s.loop.Taken? || s.loop.Waiting?
  {
    s.(loop := Selecting, handled := s.handled + [Attempt(s.loop.ticket, sent)])
  }

  /** The state after a step; `None` when it cannot be taken. */
  function Next(s: State, step: Step): Option<State> {
    match step
    case Enqueue(caller, txs) =>
      if Busy(s, caller) then None
      else Some(s.(calls := s.calls[caller := CallsOf(s, caller) + [Call(txs, 0, Running)]]))
    case Advance(caller) => if Busy(s, caller) then Some(Advanced(s, caller)) else None
    case Take =>
      if s.loop.Selecting? && s.queue != [] then Some(s.(loop := Taken(s.queue[0]), queue := s.queue[1..])) else None
    case Stop => if s.loop.Selecting? && s.done then Some(s.(loop := Stopped)) else None
    case CheckClient =>
      if !s.loop.Taken? then None
      else if s.ready then Some(Finished(s, true))
      else Some(s.(loop := Waiting(s.loop.ticket)))
    case Tick => if s.loop.Waiting? && s.ready then Some(Finished(s, true)) else None
    case Deadline => if s.loop.Waiting? then Some(Finished(s, false)) else None
    case Abandon => if s.loop.Waiting? && s.done then Some(Finished(s, false)) else None
    case SetClient => Some(s.(ready := true))
    case Close => if s.done then None else Some(s.(done := true))
    case CloseReturns => if s.done && s.loop.Stopped? && !s.closed then Some(s.(closed := true)) else None
  }

  /** An interleaving: the state after all its steps, if each can be taken. */
  function Run(s: State, steps: seq<Step>): Option<State>
    decreases |steps|
  {
    if steps == [] then Some(s)
    else match Next(s, steps[0])
      case None => None
      case Some(s') => Run(s', steps[1..])
  }

  // ------------------------------------------------------------------ what the queue keeps

  function Tickets(as': seq<Attempt>): (ts: seq<Ticket>)
    ensures |ts| == |as'|
  {
    seq(|as'|, i requires 0 <= i < |as'| => as'[i].ticket)
  }

  function InFlight(l: Loop): seq<Ticket> {
    if l.Taken? || l.Waiting? then [l.ticket] else []
  }

  ghost predicate Fifo(s: State) {
    s.accepted == Tickets(s.handled) + InFlight(s.loop) + s.queue
  }

  /** The tickets of the non-nil elements among the first `pos`. */
  function CallTickets(caller: nat, call: nat, txs: seq<Option<Tx>>, pos: nat): seq<Ticket>
    requires pos <= |txs|
  {
    if pos == 0 then []
    else CallTickets(caller, call, txs, pos - 1) +
         match txs[pos - 1] case None => [] case Some(tx) => [Ticket(caller, call, pos - 1, tx)]
  }

  /** The tickets of all calls of one caller, call after call. */
  function CallerTickets(caller: nat, cs: seq<Call>): seq<Ticket>
    requires forall k :: 0 <= k < |cs| ==> cs[k].pos <= |cs[k].txs|
  {
    if cs == [] then []
    else
      var k := |cs| - 1;
      CallerTickets(caller, cs[..k]) + CallTickets(caller, k, cs[k].txs, cs[k].pos)
  }

  /** The tickets of one caller, in the order in which the queue accepted them. */
  function Of(ts: seq<Ticket>, caller: nat): seq<Ticket> {
    if ts == [] then []
    else Of(ts[..|ts| - 1], caller) + if ts[|ts| - 1].caller == caller then [ts[|ts| - 1]] else []
  }

  /** A call that returned failed at an element that is not nil, or went through all. */
  ghost predicate CallOk(c: Call) {
    && c.pos <= |c.txs|
    && (c.status == Returned(true) ==> c.pos == |c.txs|)
    && (c.status == Returned(false) ==> c.pos < |c.txs| && c.txs[c.pos].Some?)
  }

  ghost predicate CallsOk(s: State) {
    forall a :: a in s.calls ==> forall k :: 0 <= k < |s.calls[a]| ==> CallOk(s.calls[a][k])
  }

  /** Each caller's accepted transactions are those of its calls, in its own order. */
  ghost predicate InOrder(s: State)
    requires CallsOk(s)
  {
    forall a: nat :: Of(s.accepted, a) == CallerTickets(a, CallsOf(s, a))
  }

  ghost predicate Issued(s: State, t: Ticket) {
    t.call < |CallsOf(s, t.caller)| && t.index < CallsOf(s, t.caller)[t.call].pos
  }

  ghost predicate Distinct(s: State) {
    && (forall i :: 0 <= i < |s.accepted| ==> Issued(s, s.accepted[i]))
    && (forall i, j :: 0 <= i < j < |s.accepted| ==> s.accepted[i] != s.accepted[j])
  }

  ghost predicate Inv(s: State) {
    && Fifo(s) && |s.queue| <= CAPACITY
    && CallsOk(s) && InOrder(s) && Distinct(s)
    && (s.closed ==> s.loop.Stopped?)
    && (forall i :: 0 <= i < |s.handled| && s.handled[i].sent ==> s.ready)
  }

  // ------------------------------------------------------------------ steps of a caller

  lemma OfAppend(ts: seq<Ticket>, t: Ticket, caller: nat)
    ensures Of(ts + [t], caller) == Of(ts, caller) + if t.caller == caller then [t] else []
  {
    assert (ts + [t])[..|ts|] == ts;
  }

  lemma CallerTicketsLast(caller: nat, cs: seq<Call>, c: Call)
    requires c.pos <= |c.txs| && forall k :: 0 <= k < |cs| ==> cs[k].pos <= |cs[k].txs|
    ensures CallerTickets(caller, cs + [c]) == CallerTickets(caller, cs) + CallTickets(caller, |cs|, c.txs, c.pos)
  {
    assert (cs + [c])[..|cs|] == cs;
  }

  lemma SplitLast(cs: seq<Call>)
    requires cs != []
    ensures cs == cs[..|cs| - 1] + [cs[|cs| - 1]]
  {
  }

  /** What a caller's step does to its last call and to the queue. */
  lemma WithLastCalls(s: State, caller: nat, c: Call, a: nat)
    requires CallsOf(s, caller) != []
    ensures var cs := CallsOf(s, caller);
            CallsOf(WithLast(s, caller, c), a) == if a == caller then cs[..|cs| - 1] + [c] else CallsOf(s, a)
  {
  }

  lemma WithLastOk(s: State, caller: nat, c: Call)
    requires CallsOk(s) && CallsOf(s, caller) != [] && CallOk(c)
    ensures CallsOk(WithLast(s, caller, c))
  {
    var t := WithLast(s, caller, c);
    forall a, k | a in t.calls && 0 <= k < |t.calls[a]|
      ensures CallOk(t.calls[a][k])
    {
      WithLastCalls(s, caller, c, a);
    }
  }

  /** A call whose accepted prefix is that of its last state. */
  ghost predicate SamePrefix(s: State, caller: nat, c: Call)
    requires CallsOf(s, caller) != []
  {
    var old' := LastCall(s, caller);
    && c.txs == old'.txs && old'.pos <= c.pos <= |c.txs|
    && CallTickets(caller, |CallsOf(s, caller)| - 1, c.txs, c.pos)
    == CallTickets(caller, |CallsOf(s, caller)| - 1, c.txs, old'.pos)
  }

  lemma PassedInOrder(s: State, caller: nat, c: Call)
    requires CallsOk(s) && InOrder(s) && CallsOf(s, caller) != [] && CallOk(c) && SamePrefix(s, caller, c)
    requires CallsOk(WithLast(s, caller, c))
    ensures InOrder(WithLast(s, caller, c))
  {
    hide Of, CallerTickets, CallTickets;
    var t, cs := WithLast(s, caller, c), CallsOf(s, caller);
    CallsFit(t, caller);
    forall a: nat
      ensures Of(t.accepted, a) == CallerTickets(a, CallsOf(t, a))
    {
      WithLastCalls(s, caller, c, a);
      if a == caller {
        SplitLast(cs);
        CallsFit(s, caller);
        CallerTicketsLast(a, cs[..|cs| - 1], c);
        CallerTicketsLast(a, cs[..|cs| - 1], cs[|cs| - 1]);
      }
    }
  }

  lemma PassedDistinct(s: State, caller: nat, c: Call)
    requires Distinct(s) && CallsOf(s, caller) != [] && LastCall(s, caller).pos <= c.pos
    ensures Distinct(WithLast(s, caller, c))
  {
    var t := WithLast(s, caller, c);
    forall i | 0 <= i < |t.accepted|
      ensures Issued(t, t.accepted[i])
    {
      assert Issued(s, s.accepted[i]);
      WithLastCalls(s, caller, c, t.accepted[i].caller);
    }
  }

  /** A step that leaves the last call's accepted prefix as it was. */
  lemma PassedOver(s: State, caller: nat, c: Call)
    requires Inv(s) && CallsOf(s, caller) != [] && CallOk(c) && SamePrefix(s, caller, c)
    ensures Inv(WithLast(s, caller, c))
  {
    hide InOrder, Distinct, Of;
    WithLastOk(s, caller, c);
    PassedInOrder(s, caller, c);
    PassedDistinct(s, caller, c);
  }

  /** A step that puts one more transaction into the queue. */
  lemma Accepted(s: State, caller: nat)
    requires Inv(s) && Busy(s, caller) && |s.queue| < CAPACITY
    requires var c := LastCall(s, caller); c.pos < |c.txs| && c.txs[c.pos].Some?
    ensures Inv(Advanced(s, caller))
  {
    hide InOrder, Of;
    var c, cs := LastCall(s, caller), CallsOf(s, caller);
    var c' := c.(pos := c.pos + 1);
    var t := Advanced(s, caller);
    var ticket := Ticket(caller, |cs| - 1, c.pos, c.txs[c.pos].value);
    LastCallOk(s, caller);
    WithLastOk(s, caller, c');
    assert CallsOk(t);
    AcceptedInOrder(s, t, caller, c', ticket);
    AcceptedDistinct(s, t, caller, c', ticket);
    assert t.accepted == Tickets(s.handled) + InFlight(s.loop) + (s.queue + [ticket]);
  }

  lemma LastCallOk(s: State, caller: nat)
    requires CallsOk(s) && CallsOf(s, caller) != []
    ensures CallOk(LastCall(s, caller))
  {
  }

  lemma AcceptedInOrder(s: State, t: State, caller: nat, c': Call, ticket: Ticket)
    requires CallsOk(s) && InOrder(s) && CallsOk(t) && CallsOf(s, caller) != []
    requires var c := LastCall(s, caller);
             c.pos < |c.txs| && c' == c.(pos := c.pos + 1) && c.txs[c.pos] == Some(ticket.tx)
             && ticket == Ticket(caller, |CallsOf(s, caller)| - 1, c.pos, ticket.tx)
    requires t.calls == WithLast(s, caller, c').calls && t.accepted == s.accepted + [ticket]
    ensures InOrder(t)
  {
    hide Of, CallerTickets;
    var cs := CallsOf(s, caller);
    CallsFit(t, caller);
    forall a: nat
      ensures Of(t.accepted, a) == CallerTickets(a, CallsOf(t, a))
    {
      WithLastCalls(s, caller, c', a);
      OfAppend(s.accepted, ticket, a);
      if a == caller {
        SplitLast(cs);
        CallsFit(s, caller);
        CallerTicketsLast(a, cs[..|cs| - 1], c');
        CallerTicketsLast(a, cs[..|cs| - 1], LastCall(s, caller));
      }
    }
  }

  lemma CallsFit(s: State, caller: nat)
    requires CallsOk(s)
    ensures forall k :: 0 <= k < |CallsOf(s, caller)| ==> CallsOf(s, caller)[k].pos <= |CallsOf(s, caller)[k].txs|
  {
  }

  lemma AcceptedDistinct(s: State, t: State, caller: nat, c': Call, ticket: Ticket)
    requires Distinct(s) && CallsOf(s, caller) != []
    requires c' == LastCall(s, caller).(pos := LastCall(s, caller).pos + 1)
    requires ticket.caller == caller && ticket.call == |CallsOf(s, caller)| - 1 && ticket.index == LastCall(s, caller).pos
    requires t.calls == WithLast(s, caller, c').calls && t.accepted == s.accepted + [ticket]
    ensures Distinct(t)
  {
    assert !Issued(s, ticket);
    forall i | 0 <= i < |t.accepted|
      ensures Issued(t, t.accepted[i])
    {
      WithLastCalls(s, caller, c', t.accepted[i].caller);
      if i < |s.accepted| {
        assert Issued(s, s.accepted[i]);
      }
    }
    forall i | 0 <= i < |s.accepted|
      ensures s.accepted[i] != ticket
    {
      assert Issued(s, s.accepted[i]);
    }
  }

  lemma NilAddsNothing(caller: nat, k: nat, txs: seq<Option<Tx>>, pos: nat)
    requires pos < |txs| && txs[pos].None?
    ensures CallTickets(caller, k, txs, pos + 1) == CallTickets(caller, k, txs, pos)
  {
  }

  lemma AdvanceKeeps(s: State, caller: nat)
    requires Inv(s) && Busy(s, caller)
    ensures Inv(Advanced(s, caller))
  {
    hide Inv, CallTickets, WithLast;
    var c := LastCall(s, caller);
    BusyCallOk(s, caller);
    if c.pos >= |c.txs| {
      PassedOver(s, caller, c.(status := Returned(true)));
    } else if c.txs[c.pos].None? {
      NilAddsNothing(caller, |CallsOf(s, caller)| - 1, c.txs, c.pos);
      PassedOver(s, caller, c.(pos := c.pos + 1));
    } else if |s.queue| >= CAPACITY {
      PassedOver(s, caller, c.(status := Returned(false)));
    } else {
      Accepted(s, caller);
    }
  }

  lemma BusyCallOk(s: State, caller: nat)
    requires Inv(s) && Busy(s, caller)
    ensures CallOk(LastCall(s, caller))
  {
    LastCallOk(s, caller);
  }

  lemma BegunCalls(s: State, caller: nat, c: Call, a: nat)
    ensures CallsOf(s.(calls := s.calls[caller := CallsOf(s, caller) + [c]]), a)
         == if a == caller then CallsOf(s, a) + [c] else CallsOf(s, a)
  {
  }

  lemma BegunOk(s: State, caller: nat, c: Call)
    requires CallsOk(s) && CallOk(c)
    ensures CallsOk(s.(calls := s.calls[caller := CallsOf(s, caller) + [c]]))
  {
    hide CallOk;
    var t := s.(calls := s.calls[caller := CallsOf(s, caller) + [c]]);
    forall a, k | a in t.calls && 0 <= k < |t.calls[a]|
      ensures CallOk(t.calls[a][k])
    {
      BegunCalls(s, caller, c, a);
    }
  }

  lemma BegunInOrder(s: State, caller: nat, txs: seq<Option<Tx>>)
    requires CallsOk(s) && InOrder(s)
    requires CallsOk(s.(calls := s.calls[caller := CallsOf(s, caller) + [Call(txs, 0, Running)]]))
    ensures InOrder(s.(calls := s.calls[caller := CallsOf(s, caller) + [Call(txs, 0, Running)]]))
  {
    hide Of, CallerTickets;
    var c := Call(txs, 0, Running);
    var t := s.(calls := s.calls[caller := CallsOf(s, caller) + [c]]);
    forall a: nat
      ensures Of(t.accepted, a) == CallerTickets(a, CallsOf(t, a))
    {
      BegunCalls(s, caller, c, a);
      CallsFit(s, a);
      if a == caller {
        CallerTicketsLast(a, CallsOf(s, caller), c);
        assert CallerTickets(a, CallsOf(s, caller)) + [] == CallerTickets(a, CallsOf(s, caller));
      }
    }
  }

  lemma BegunDistinct(s: State, caller: nat, c: Call)
    requires Distinct(s)
    ensures Distinct(s.(calls := s.calls[caller := CallsOf(s, caller) + [c]]))
  {
    var t := s.(calls := s.calls[caller := CallsOf(s, caller) + [c]]);
    forall i | 0 <= i < |t.accepted|
      ensures Issued(t, t.accepted[i])
    {
      assert Issued(s, s.accepted[i]);
      BegunCalls(s, caller, c, t.accepted[i].caller);
    }
  }

  lemma EnqueueKeeps(s: State, caller: nat, txs: seq<Option<Tx>>)
    requires Inv(s) && !Busy(s, caller)
    ensures Inv(Next(s, Enqueue(caller, txs)).value)
  {
    hide Of, InOrder, Distinct, CallsOk, CallOk;
    NewCallOk(txs);
    BegunOk(s, caller, Call(txs, 0, Running));
    BegunInOrder(s, caller, txs);
    BegunDistinct(s, caller, Call(txs, 0, Running));
  }

  lemma NewCallOk(txs: seq<Option<Tx>>)
    ensures CallOk(Call(txs, 0, Running))
  {
  }

  // ------------------------------------------------------------------ steps of the consumer

  lemma ConsumerFifo(s: State, step: Step)
    requires Fifo(s) && Next(s, step).Some? && !step.Enqueue? && !step.Advance?
    ensures Fifo(Next(s, step).value)
  {
    var t := Next(s, step).value;
    if t.handled != s.handled {
      assert Tickets(t.handled) == Tickets(s.handled) + [s.loop.ticket];
    }
    if step.Take? {
      assert s.queue == [s.queue[0]] + s.queue[1..];
    }
  }

  lemma StepKeeps(s: State, step: Step)
    requires Inv(s) && Next(s, step).Some?
    ensures Inv(Next(s, step).value)
  {
    hide Fifo, InOrder, Of;
    match step {
      case Enqueue(caller, txs) => EnqueueKeeps(s, caller, txs);
      case Advance(caller) => AdvanceKeeps(s, caller);
      case _ =>
        ConsumerFifo(s, step);
        SameCallers(s, Next(s, step).value);
    }
  }

  lemma SameCallers(s: State, t: State)
    requires CallsOk(s) && InOrder(s) && Distinct(s) && t.calls == s.calls && t.accepted == s.accepted
    ensures CallsOk(t) && InOrder(t) && Distinct(t)
  {
    forall a: nat
      ensures Of(t.accepted, a) == CallerTickets(a, CallsOf(t, a))
    {
      assert CallsOf(t, a) == CallsOf(s, a);
    }
    forall i | 0 <= i < |t.accepted|
      ensures Issued(t, t.accepted[i])
    {
      assert Issued(s, s.accepted[i]);
    }
  }

  lemma {:induction false} RunKeeps(s: State, steps: seq<Step>)
    requires Inv(s) && Run(s, steps).Some?
    ensures Inv(Run(s, steps).value)
    decreases |steps|
  {
    hide Inv, Next;
    if steps != [] {
      StepKeeps(s, steps[0]);
      RunKeeps(Next(s, steps[0]).value, steps[1..]);
    }
  }

  // ------------------------------------------------------------------ theorems

  /** Over every interleaving of enqueuers, consumer and Close: what was accepted is what
      was handled, then what is in flight, then what is queued, first in first out; the
      queue is never over capacity; nothing is attempted twice; each caller's order is
      kept; and only a broadcaster with a client has sent anything. */
  lemma QueueIsFifo(steps: seq<Step>)
    requires Run(INIT, steps).Some?
    ensures var s := Run(INIT, steps).value;
            && s.accepted == Tickets(s.handled) + InFlight(s.loop) + s.queue
            && |s.queue| <= 10_000
            && (forall i, j :: 0 <= i < j < |s.handled| ==> s.handled[i].ticket != s.handled[j].ticket)
            && (forall i :: 0 <= i < |s.handled| && s.handled[i].sent ==> s.ready)
            && CallsOk(s)
            && forall a: nat :: Of(s.accepted, a) == CallerTickets(a, CallsOf(s, a))
  {
    InitKeeps();
    RunKeeps(INIT, steps);
    var s := Run(INIT, steps).value;
    forall i, j | 0 <= i < j < |s.handled|
      ensures s.handled[i].ticket != s.handled[j].ticket
    {
      assert Tickets(s.handled)[i] == s.accepted[i] && Tickets(s.handled)[j] == s.accepted[j];
    }
  }

  lemma InitKeeps()
    ensures Inv(INIT)
  {
    assert Tickets(INIT.handled) == [];
  }

  function OfCall(ts: seq<Ticket>, call: nat): seq<Ticket> {
    if ts == [] then []
    else OfCall(ts[..|ts| - 1], call) + if ts[|ts| - 1].call == call then [ts[|ts| - 1]] else []
  }

  lemma {:induction false} OfCallConcat(a: seq<Ticket>, b: seq<Ticket>, call: nat)
    ensures OfCall(a + b, call) == OfCall(a, call) + OfCall(b, call)
  {
    if b == [] {
      assert a + b == a;
    } else {
      var n := |b| - 1;
      assert (a + b)[..|a| + n] == a + b[..n];
      OfCallConcat(a, b[..n], call);
    }
  }

  lemma {:induction false} OwnCall(caller: nat, k: nat, txs: seq<Option<Tx>>, pos: nat, call: nat)
    requires pos <= |txs|
    ensures OfCall(CallTickets(caller, k, txs, pos), call) == if k == call then CallTickets(caller, k, txs, pos) else []
  {
    assert OfCall([], call) == [];
    if pos > 0 {
      OwnCall(caller, k, txs, pos - 1, call);
      var head := CallTickets(caller, k, txs, pos - 1);
      if txs[pos - 1].Some? {
        var t := Ticket(caller, k, pos - 1, txs[pos - 1].value);
        assert (head + [t])[..|head|] == head;
      } else {
        assert head + [] == head;
      }
    }
  }

  lemma NoCalls(call: nat)
    ensures OfCall([], call) == []
  {
  }

  lemma {:induction false} CallInCaller(caller: nat, cs: seq<Call>, call: nat)
    requires forall k :: 0 <= k < |cs| ==> cs[k].pos <= |cs[k].txs|
    ensures OfCall(CallerTickets(caller, cs), call)
         == if call < |cs| then CallTickets(caller, call, cs[call].txs, cs[call].pos) else []
  {
    hide OfCall, CallTickets;
    assert OfCall([], call) == [] by { NoCalls(call); }
    if cs != [] {
      var k := |cs| - 1;
      CallInCaller(caller, cs[..k], call);
      OfCallConcat(CallerTickets(caller, cs[..k]), CallTickets(caller, k, cs[k].txs, cs[k].pos), call);
      OwnCall(caller, k, cs[k].txs, cs[k].pos, call);
    }
  }

  /** A call that succeeded has had all its non-nil elements accepted, in order; one that
      failed has had accepted exactly those before the element it failed at, which is not
      nil; and one still running exactly those it has gone through. */
  lemma CallAcceptsPrefix(steps: seq<Step>, caller: nat, call: nat)
    requires Run(INIT, steps).Some? && call < |CallsOf(Run(INIT, steps).value, caller)|
    ensures var s := Run(INIT, steps).value;
            var c := CallsOf(s, caller)[call];
            && c.pos <= |c.txs|
            && OfCall(Of(s.accepted, caller), call) == CallTickets(caller, call, c.txs, c.pos)
            && (c.status == Returned(true) ==> c.pos == |c.txs|)
            && (c.status == Returned(false) ==> c.pos < |c.txs| && c.txs[c.pos].Some?)
  {
    hide Run, Of;
    QueueIsFifo(steps);
    var s := Run(INIT, steps).value;
    assert CallOk(s.calls[caller][call]);
    CallInCaller(caller, CallsOf(s, caller), call);
  }

  /** A call fails only when the queue is full, at that very step. */
  lemma FailsOnlyWhenFull(s: State, step: Step, caller: nat, call: nat)
    requires Next(s, step).Some? && call < |CallsOf(s, caller)|
    requires CallsOf(s, caller)[call].status.Running?
    requires var cs := CallsOf(Next(s, step).value, caller); call < |cs| && cs[call].status == Returned(false)
    ensures step == Advance(caller) && |s.queue| >= CAPACITY
  {
    if step.Advance? {
      WithLastCalls(s, step.caller, LastCall(Next(s, step).value, step.caller), caller);
    }
  }

  predicate Failed(s: State, caller: nat, call: nat) {
    call < |CallsOf(s, caller)| && CallsOf(s, caller)[call].status == Returned(false)
  }

  /** The step at which a call fails. */
  lemma {:induction false} FailureStep(s: State, steps: seq<Step>, caller: nat, call: nat) returns (n: nat)
    requires Inv(s) && Run(s, steps).Some? && !Failed(s, caller, call) && Failed(Run(s, steps).value, caller, call)
    ensures n < |steps| && Run(s, steps[..n]).Some?
    ensures steps[n] == Advance(caller) && |Run(s, steps[..n]).value.queue| == CAPACITY
    decreases |steps|
  {
    hide Inv, Next;
    var t := Next(s, steps[0]).value;
    if Failed(t, caller, call) {
      n := 0;
      FailureNow(s, steps[0], caller, call);
    } else {
      StepKeeps(s, steps[0]);
      n := FailureStep(t, steps[1..], caller, call);
      assert steps[..n + 1][1..] == steps[1..][..n];
      n := n + 1;
    }
  }

  lemma FailureNow(s: State, step: Step, caller: nat, call: nat)
    requires Inv(s) && Next(s, step).Some? && !Failed(s, caller, call) && Failed(Next(s, step).value, caller, call)
    ensures step == Advance(caller) && |s.queue| == CAPACITY
  {
    hide Inv, Next;
    WithinCapacity(s);
    if call >= |CallsOf(s, caller)| {
      NewCallRuns(s, step, caller, call);
    } else if CallsOf(s, caller)[call].status.Running? {
      FailsOnlyWhenFull(s, step, caller, call);
    } else {
      ReturnedStep(s, step, caller, call);
    }
  }

  lemma WithinCapacity(s: State)
    requires Inv(s)
    ensures |s.queue| <= CAPACITY
  {
    hide Fifo, CallsOk, InOrder, Distinct;
  }

  /** A call that a step adds has not returned. */
  lemma NewCallRuns(s: State, step: Step, caller: nat, call: nat)
    requires Next(s, step).Some? && |CallsOf(s, caller)| <= call < |CallsOf(Next(s, step).value, caller)|
    ensures CallsOf(Next(s, step).value, caller)[call].status.Running?
  {
    if step.Advance? && step.caller == caller {
      hide Advanced;
      AdvancedLast(s, caller);
    } else if step.Advance? {
      hide Advanced;
      OthersKept(s, step.caller, caller);
    }
  }

  lemma OthersKept(s: State, caller: nat, other: nat)
    requires Busy(s, caller) && other != caller
    ensures CallsOf(Advanced(s, caller), other) == CallsOf(s, other)
  {
  }

  /** In every interleaving, a call that failed did so at a step of its caller at which the
      queue held exactly 10,000 transactions. */
  lemma FailedWhenFull(steps: seq<Step>, caller: nat, call: nat) returns (n: nat)
    requires Run(INIT, steps).Some? && Failed(Run(INIT, steps).value, caller, call)
    ensures n < |steps| && Run(INIT, steps[..n]).Some?
    ensures steps[n] == Advance(caller) && |Run(INIT, steps[..n]).value.queue| == 10_000
  {
    InitKeeps();
    n := FailureStep(INIT, steps, caller, call);
  }

  /** What a returned call was given and how far it got never changes again. */
  lemma {:induction false} ReturnedStays(s: State, steps: seq<Step>, caller: nat, call: nat)
    requires Run(s, steps).Some? && call < |CallsOf(s, caller)| && CallsOf(s, caller)[call].status.Returned?
    ensures var t := Run(s, steps).value;
            call < |CallsOf(t, caller)| && CallsOf(t, caller)[call] == CallsOf(s, caller)[call]
    decreases |steps|
  {
    if steps != [] {
      ReturnedStep(s, steps[0], caller, call);
      ReturnedStays(Next(s, steps[0]).value, steps[1..], caller, call);
    }
  }

  lemma ReturnedStep(s: State, step: Step, caller: nat, call: nat)
    requires Next(s, step).Some? && call < |CallsOf(s, caller)| && CallsOf(s, caller)[call].status.Returned?
    ensures var t := Next(s, step).value;
            call < |CallsOf(t, caller)| && CallsOf(t, caller)[call] == CallsOf(s, caller)[call]
  {
    if step.Advance? && step.caller == caller {
      AdvancedLast(s, caller);
    }
  }

  /** Advancing changes no call of the caller but its last, which is running. */
  lemma AdvancedLast(s: State, caller: nat)
    requires Busy(s, caller)
    ensures var cs, cs' := CallsOf(s, caller), CallsOf(Advanced(s, caller), caller);
            |cs'| == |cs| && cs'[..|cs| - 1] == cs[..|cs| - 1]
  {
  }

  /** Once the consumer has stopped, as it has when Close returns, nothing more is taken
      from the queue, in flight, or handled. */
  lemma {:induction false} StoppedForGood(s: State, steps: seq<Step>)
    requires Run(s, steps).Some? && s.loop.Stopped?
    ensures var t := Run(s, steps).value; t.loop.Stopped? && t.handled == s.handled && s.queue <= t.queue
    decreases |steps|
  {
    if steps != [] {
      StoppedForGood(Next(s, steps[0]).value, steps[1..]);
    }
  }

  lemma NothingAfterClose(before: seq<Step>, after: seq<Step>)
    requires Run(INIT, before).Some? && Run(INIT, before).value.closed
    requires Run(Run(INIT, before).value, after).Some?
    ensures Run(Run(INIT, before).value, after).value.handled == Run(INIT, before).value.handled
  {
    InitKeeps();
    RunKeeps(INIT, before);
    StoppedForGood(Run(INIT, before).value, after);
  }
}
