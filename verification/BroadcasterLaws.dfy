/** What becomes of each transaction, and what the broadcaster can always do: the origin of
    every attempt, who sets the flags, and runs that drain the queue, close the broadcaster
    or finish a call. */
module BroadcasterLaws {
  import opened Machine
  import opened Broadcaster

  // ------------------------------------------------------------------ runs, from their end

  lemma {:induction false} RunLast(s: State, steps: seq<Step>)
    requires steps != []
    ensures var front, last := steps[..|steps| - 1], steps[|steps| - 1];
            Run(s, steps) == match Run(s, front) case None => None case Some(t) => Next(t, last)
    decreases |steps|
  {
    hide Next;
    if |steps| == 1 {
      assert steps[1..] == [];
    } else {
      var front := steps[..|steps| - 1];
      assert front[0] == steps[0] && front[1..] == steps[1..][..|steps| - 2];
      if Next(s, steps[0]).Some? {
        RunLast(Next(s, steps[0]).value, steps[1..]);
      }
    }
  }

  /** The state of a run after its first `n` steps. */
  function At(steps: seq<Step>, n: nat): State
    requires n <= |steps| && Run(INIT, steps).Some?
  {
    PrefixRuns(INIT, steps, n);
    Run(INIT, steps[..n]).value
  }

  lemma {:induction false} PrefixRuns(s: State, steps: seq<Step>, n: nat)
    requires n <= |steps| && Run(s, steps).Some?
    ensures Run(s, steps[..n]).Some?
    decreases |steps|
  {
    hide Next;
    if n < |steps| {
      RunLast(s, steps);
      var front := steps[..|steps| - 1];
      assert steps[..n] == front[..n];
      PrefixRuns(s, front, n);
    } else {
      assert steps[..n] == steps;
    }
  }

  /** One step of a run. */
  lemma StepAt(steps: seq<Step>, n: nat)
    requires n < |steps| && Run(INIT, steps).Some?
    ensures Next(At(steps, n), steps[n]) == Some(At(steps, n + 1))
  {
    hide Next;
    PrefixRuns(INIT, steps, n + 1);
    RunLast(INIT, steps[..n + 1]);
    assert steps[..n + 1][..n] == steps[..n];
  }

  lemma StartAndEnd(steps: seq<Step>)
    requires Run(INIT, steps).Some?
    ensures At(steps, 0) == INIT && At(steps, |steps|) == Run(INIT, steps).value
  {
    assert steps[..0] == [] && steps[..|steps|] == steps;
  }

  lemma InvAt(steps: seq<Step>, n: nat)
    requires n <= |steps| && Run(INIT, steps).Some?
    ensures Inv(At(steps, n))
  {
    hide Inv, Next;
    InitKeeps();
    PrefixRuns(INIT, steps, n);
    RunKeeps(INIT, steps[..n]);
  }

  // ------------------------------------------------------------------ attempts

  /** How the consumer got done with a transaction at a step from `u`: it is sent only with
      a client, on the first look or a later one, and given up only while waiting, when the
      time has run out or the broadcaster is closing. */
  predicate Concludes(u: State, step: Step, a: Attempt) {
    && (u.loop == Taken(a.ticket) || u.loop == Waiting(a.ticket))
    && (a.sent ==> u.ready && ((step.CheckClient? && u.loop.Taken?) || (step.Tick? && u.loop.Waiting?)))
    && (!a.sent ==> u.loop.Waiting? && (step.Deadline? || (step.Abandon? && u.done)))
  }

  lemma HandledStep(u: State, step: Step)
    requires Next(u, step).Some?
    ensures var v := Next(u, step).value;
            v.handled == u.handled
            || (|v.handled| == |u.handled| + 1 && v.handled[..|u.handled|] == u.handled
                && Concludes(u, step, v.handled[|u.handled|]))
  {
  }

  /** The step at which attempt `i` of a run was made. */
  lemma {:induction false} AttemptOrigin(steps: seq<Step>, end: nat, i: nat) returns (n: nat)
    requires end <= |steps| && Run(INIT, steps).Some? && i < |At(steps, end).handled|
    ensures n < end && |At(steps, n).handled| == i && Concludes(At(steps, n), steps[n], At(steps, end).handled[i])
    decreases end
  {
    hide Next, At, Concludes;
    StartAndEnd(steps);
    assert end > 0;
    StepAt(steps, end - 1);
    HandledStep(At(steps, end - 1), steps[end - 1]);
    if i < |At(steps, end - 1).handled| {
      n := AttemptOrigin(steps, end - 1, i);
      assert At(steps, end).handled[..|At(steps, end - 1).handled|] == At(steps, end - 1).handled;
    } else {
      n := end - 1;
    }
  }

  lemma WaitingStep(u: State, step: Step, t: Ticket)
    requires Next(u, step).Some? && Next(u, step).value.loop == Waiting(t)
    ensures u.loop == Waiting(t) || (step.CheckClient? && u.loop == Taken(t) && !u.ready)
  {
  }

  /** A consumer that waits has looked for a client and found none. */
  lemma {:induction false} WaitingOrigin(steps: seq<Step>, end: nat, t: Ticket) returns (m: nat)
    requires end <= |steps| && Run(INIT, steps).Some? && At(steps, end).loop == Waiting(t)
    ensures m < end && steps[m].CheckClient? && At(steps, m).loop == Taken(t) && !At(steps, m).ready
    decreases end
  {
    hide Next, At;
    StartAndEnd(steps);
    assert end > 0;
    StepAt(steps, end - 1);
    WaitingStep(At(steps, end - 1), steps[end - 1], t);
    if At(steps, end - 1).loop == Waiting(t) {
      m := WaitingOrigin(steps, end - 1, t);
    } else {
      m := end - 1;
    }
  }

  /** Over every interleaving: each attempt was made at a step of its own. One that was sent
      was sent with a client. One that was not had been looked up at an earlier step, when
      there was no client, and was given up at a deadline or while closing. */
  lemma AttemptsExplained(steps: seq<Step>, i: nat) returns (n: nat, m: nat)
    requires Run(INIT, steps).Some? && i < |Run(INIT, steps).value.handled|
    ensures var a := Run(INIT, steps).value.handled[i];
            && n < |steps| && Concludes(At(steps, n), steps[n], a)
            && (!a.sent ==>
                  m < n && steps[m].CheckClient? && At(steps, m).loop == Taken(a.ticket) && !At(steps, m).ready)
  {
    hide Next, At;
    StartAndEnd(steps);
    n := AttemptOrigin(steps, |steps|, i);
    var a := Run(INIT, steps).value.handled[i];
    m := 0;
    if !a.sent {
      m := WaitingOrigin(steps, n, a.ticket);
    }
  }

  // ------------------------------------------------------------------ with a client

  /** What steps never undo. */
  ghost predicate Grows(s: State, t: State) {
    && s.accepted <= t.accepted && |s.handled| <= |t.handled|
    && (s.ready ==> t.ready) && (s.done ==> t.done) && (s.closed ==> t.closed)
    && (|s.handled| == |t.handled| && (s.loop.Taken? || s.loop.Waiting?) ==> !t.loop.Selecting?)
  }

  lemma StepGrows(s: State, step: Step)
    requires Next(s, step).Some?
    ensures Grows(s, Next(s, step).value)
    ensures |s.handled| == |Next(s, step).value.handled| && (s.loop.Taken? || s.loop.Waiting?)
            ==> Next(s, step).value.loop.Taken? || Next(s, step).value.loop.Waiting?
  {
  }

  lemma {:induction false} RunGrows(steps: seq<Step>, m: nat, n: nat)
    requires m <= n <= |steps| && Run(INIT, steps).Some?
    ensures Grows(At(steps, m), At(steps, n))
    ensures |At(steps, m).handled| == |At(steps, n).handled| && (At(steps, m).loop.Taken? || At(steps, m).loop.Waiting?)
            ==> At(steps, n).loop.Taken? || At(steps, n).loop.Waiting?
    decreases n
  {
    hide Next, At;
    if m < n {
      RunGrows(steps, m, n - 1);
      StepAt(steps, n - 1);
      StepGrows(At(steps, n - 1), steps[n - 1]);
    }
  }

  lemma InFlightAt(s: State)
    requires Inv(s) && (s.loop.Taken? || s.loop.Waiting?)
    ensures |s.handled| < |s.accepted| && s.accepted[|s.handled|] == s.loop.ticket
  {
  }

  lemma HeadAt(s: State)
    requires Inv(s) && s.loop.Selecting? && s.queue != []
    ensures |s.handled| < |s.accepted| && s.accepted[|s.handled|] == s.queue[0]
  {
  }

  lemma OnceAccepted(s: State, i: nat, j: nat)
    requires Inv(s) && i < |s.accepted| && j < |s.accepted| && s.accepted[i] == s.accepted[j]
    ensures i == j
  {
    hide Fifo, InOrder, CallsOk;
  }

  /** A transaction taken from the queue when there is a client is never given up. */
  lemma TakenWithClientIsSent(steps: seq<Step>, k: nat, i: nat)
    requires Run(INIT, steps).Some? && k < |steps| && steps[k].Take? && At(steps, k).ready
    requires i < |Run(INIT, steps).value.handled|
    ensures At(steps, k).queue != []
    ensures Run(INIT, steps).value.handled[i].ticket == At(steps, k).queue[0] ==> Run(INIT, steps).value.handled[i].sent
  {
    hide Inv, At, Next, Run;
    StepAt(steps, k);
    var u, a := At(steps, k), Run(INIT, steps).value.handled[i];
    TakeNeeds(u);
    if a.ticket == u.queue[0] && !a.sent {
      var n, m := AttemptsExplained(steps, i);
      if k <= m {
        RunGrows(steps, k, m);
      } else {
        InvAt(steps, m);
        InvAt(steps, k);
        InFlightAt(At(steps, m));
        HeadAt(u);
        RunGrows(steps, m, k);
        OnceAccepted(u, |At(steps, m).handled|, |u.handled|);
      }
    }
  }

  lemma TakeNeeds(u: State)
    requires Next(u, Take).Some?
    ensures u.loop.Selecting? && u.queue != []
  {
  }

  // ------------------------------------------------------------------ flags

  lemma StepFlags(s: State, step: Step)
    requires Next(s, step).Some?
    ensures var t := Next(s, step).value;
            && (t.ready <==> s.ready || step.SetClient?)
            && (t.done <==> s.done || step.Close?)
            && (t.closed <==> s.closed || step.CloseReturns?)
            && (t.loop.Stopped? <==> s.loop.Stopped? || step.Stop?)
            && (step.Stop? ==> s.done) && (step.CloseReturns? ==> s.done && s.loop.Stopped?)
  {
  }

  /** There is a client once one was set, and nothing else sets it; the broadcaster is
      closing once Close was called; the consumer has stopped once it has seen that. */
  lemma {:induction false} FlagsIff(steps: seq<Step>)
    requires Run(INIT, steps).Some?
    ensures var t := Run(INIT, steps).value;
            && (t.ready <==> SetClient in steps) && (t.done <==> Close in steps)
            && (t.closed <==> CloseReturns in steps) && (t.loop.Stopped? <==> Stop in steps)
            && (Stop in steps ==> Close in steps) && (CloseReturns in steps ==> Stop in steps)
    decreases |steps|
  {
    hide Next;
    if steps != [] {
      RunLast(INIT, steps);
      var front, last := steps[..|steps| - 1], steps[|steps| - 1];
      FlagsIff(front);
      StepFlags(Run(INIT, front).value, last);
      assert steps == front + [last];
    }
  }

  // ------------------------------------------------------------------ what is always possible

  /** Which steps are possible: a client can be set at any time; a caller whose last call has
      returned can begin another, closing or not; a running call can go on; the consumer can
      take what is queued, stop when closing, look for a client, and end its wait when there
      is one, when the time has run out, or when closing; Close can be called once, and
      returns once the consumer has stopped. */
  lemma StepPossible(s: State, step: Step)
    ensures Next(s, step).Some? <==>
            match step
            case Enqueue(caller, _) => CallsOf(s, caller) == [] || LastCall(s, caller).status.Returned?
            case Advance(caller) => CallsOf(s, caller) != [] && LastCall(s, caller).status.Running?
            case Take => s.loop.Selecting? && |s.queue| > 0
            case Stop => s.loop.Selecting? && s.done
            case CheckClient => s.loop.Taken?
            case Tick => s.loop.Waiting? && s.ready
            case Deadline => s.loop.Waiting?
            case Abandon => s.loop.Waiting? && s.done
            case SetClient => true
            case Close => !s.done
            case CloseReturns => s.loop.Stopped? && s.done && !s.closed
  {
  }

  lemma RunTwo(s: State, a: seq<Step>, b: seq<Step>)
    requires Run(s, a).Some?
    ensures Run(s, a + b) == Run(Run(s, a).value, b)
    decreases |a|
  {
    hide Next;
    if a == [] {
      assert a + b == b;
    } else {
      assert (a + b)[1..] == a[1..] + b;
      RunTwo(Next(s, a[0]).value, a[1..], b);
    }
  }

  lemma RunOne(s: State, step: Step)
    ensures Run(s, [step]) == Next(s, step)
  {
    assert [step][1..] == [];
  }

  /** Done with what is in flight, and nothing else changed. */
  ghost predicate Landed(s: State, t: State) {
    && t == s.(loop := Selecting, handled := t.handled) && s.handled <= t.handled
    && Tickets(t.handled) == Tickets(s.handled) + InFlight(s.loop)
    && (s.ready ==> forall i :: |s.handled| <= i < |t.handled| ==> t.handled[i].sent)
  }

  lemma FinishedLands(s: State, sent: bool)
    requires (s.loop.Taken? || s.loop.Waiting?) && (s.ready ==> sent)
    ensures Landed(s, Finished(s, sent))
  {
  }

  /** What is in flight can always be done with: sent if there is a client. */
  lemma Land(s: State) returns (steps: seq<Step>)
    requires !s.loop.Stopped?
    ensures Run(s, steps).Some? && Landed(s, Run(s, steps).value)
  {
    match s.loop {
      case Selecting =>
        steps := [];
      case Taken(ticket) =>
        if s.ready {
          steps := [CheckClient];
          RunOne(s, CheckClient);
          FinishedLands(s, true);
        } else {
          steps := [CheckClient] + [Deadline];
          RunOne(s, CheckClient);
          RunTwo(s, [CheckClient], [Deadline]);
          var w := Run(s, [CheckClient]).value;
          RunOne(w, Deadline);
          FinishedLands(w, false);
        }
      case Waiting(ticket) =>
        var step := if s.ready then Tick else Deadline;
        steps := [step];
        RunOne(s, step);
        FinishedLands(s, s.ready);
    }
  }

  /** Everything accepted is handled, what was still to do with a client if there is one. */
  ghost predicate Drained(s: State, t: State) {
    && t.queue == [] && t.loop.Selecting? && t.accepted == s.accepted && t.calls == s.calls && s.handled <= t.handled
    && Tickets(t.handled) == Tickets(s.handled) + InFlight(s.loop) + s.queue
    && (s.ready ==> forall i :: |s.handled| <= i < |t.handled| ==> t.handled[i].sent)
  }

  lemma LandedDrained(s: State, t: State)
    requires Landed(s, t) && t.queue == []
    ensures Drained(s, t)
  {
  }

  lemma DrainedMore(s: State, t: State, u: State, v: State)
    requires Landed(s, t) && t.queue != [] && u == t.(loop := Taken(t.queue[0]), queue := t.queue[1..]) && Drained(u, v)
    ensures Drained(s, v)
  {
    assert t.queue == [t.queue[0]] + t.queue[1..];
    forall i | s.ready && |s.handled| <= i < |v.handled|
      ensures v.handled[i].sent
    {
      if i < |t.handled| {
        assert v.handled[i] == t.handled[i];
      }
    }
  }

  lemma {:induction false} Drain(s: State) returns (steps: seq<Step>)
    requires !s.loop.Stopped?
    ensures Run(s, steps).Some? && Drained(s, Run(s, steps).value)
    decreases |s.queue|
  {
    hide Run, Next, Drained;
    var first := Land(s);
    var t := Run(s, first).value;
    if t.queue == [] {
      steps := first;
      LandedDrained(s, t);
    } else {
      var u := TakeFrom(t);
      RunOne(t, Take);
      var rest := Drain(u);
      RunTwo(t, [Take], rest);
      RunTwo(s, first, [Take] + rest);
      steps := first + ([Take] + rest);
      DrainedMore(s, t, u, Run(u, rest).value);
    }
  }

  lemma TakeFrom(t: State) returns (u: State)
    requires t.loop.Selecting? && t.queue != []
    ensures Next(t, Take) == Some(u) && u == t.(loop := Taken(t.queue[0]), queue := t.queue[1..])
  {
    u := Next(t, Take).value;
  }

  /** From every point of every interleaving at which the consumer has not stopped it can
      still handle everything accepted, in order, and send all of it that is left if there
      is a client. */
  lemma CanDrain(steps: seq<Step>) returns (more: seq<Step>)
    requires Run(INIT, steps).Some? && !Run(INIT, steps).value.loop.Stopped?
    ensures var s := Run(INIT, steps).value;
            && Run(s, more).Some?
            && var t := Run(s, more).value;
               && t.queue == [] && t.calls == s.calls && Tickets(t.handled) == s.accepted == t.accepted
               && (s.ready ==> forall i :: |s.handled| <= i < |t.handled| ==> t.handled[i].sent)
  {
    QueueIsFifo(steps);
    more := Drain(Run(INIT, steps).value);
  }

  /** And it can be closed, once done with what is in flight, leaving the queue as it is. */
  lemma CanClose(s: State) returns (steps: seq<Step>)
    requires !s.closed && (s.loop.Stopped? ==> s.done)
    ensures Run(s, steps).Some? && Run(s, steps).value.closed && Run(s, steps).value.queue == s.queue
    ensures Tickets(Run(s, steps).value.handled) == Tickets(s.handled) + InFlight(s.loop)
  {
    if s.loop.Stopped? {
      steps := [CloseReturns];
      RunOne(s, CloseReturns);
      assert Tickets(s.handled) + [] == Tickets(s.handled);
    } else {
      var first := Land(s);
      var t := Run(s, first).value;
      var last := Closing(t);
      RunTwo(s, first, last);
      steps := first + last;
    }
  }

  lemma Closing(t: State) returns (steps: seq<Step>)
    requires t.loop.Selecting? && !t.closed
    ensures Run(t, steps) == Some(t.(done := true, loop := Stopped, closed := true))
  {
    var u := t.(done := true);
    var tail := [Stop] + [CloseReturns];
    var v := u.(loop := Stopped);
    RunOne(u, Stop);
    RunOne(v, CloseReturns);
    RunTwo(u, [Stop], [CloseReturns]);
    if t.done {
      steps := tail;
    } else {
      RunOne(t, Close);
      RunTwo(t, [Close], tail);
      steps := [Close] + tail;
    }
  }

  function Wanted(txs: seq<Option<Tx>>): nat {
    if txs == [] then 0 else (if txs[0].Some? then 1 else 0) + Wanted(txs[1..])
  }

  /** How a call ends that only its own steps move on: it succeeds when the queue has room
      for what is left of its input. */
  lemma {:induction false} Finish(s: State, caller: nat) returns (steps: seq<Step>)
    requires Busy(s, caller) && LastCall(s, caller).pos <= |LastCall(s, caller).txs|
    ensures Run(s, steps).Some? && |steps| <= |LastCall(s, caller).txs| - LastCall(s, caller).pos + 1
    ensures forall i :: 0 <= i < |steps| ==> steps[i] == Advance(caller)
    ensures var c, t := LastCall(s, caller), Run(s, steps).value;
            && |CallsOf(t, caller)| == |CallsOf(s, caller)|
            && LastCall(t, caller).status.Returned?
            && (|s.queue| + Wanted(c.txs[c.pos..]) <= 10_000 ==> LastCall(t, caller).status.ok)
    decreases |LastCall(s, caller).txs| - LastCall(s, caller).pos
  {
    hide Run;
    var c := LastCall(s, caller);
    var t := Advanced(s, caller);
    AdvancedCall(s, caller);
    RunOne(s, Advance(caller));
    if LastCall(t, caller).status.Returned? {
      steps := [Advance(caller)];
      assert c.pos < |c.txs| && c.txs[c.pos].Some? ==> Wanted(c.txs[c.pos..]) >= 1;
    } else {
      assert c.txs[c.pos..][1..] == c.txs[c.pos + 1..];
      var rest := Finish(t, caller);
      RunTwo(s, [Advance(caller)], rest);
      steps := [Advance(caller)] + rest;
    }
  }

  lemma AdvancedCall(s: State, caller: nat)
    requires Busy(s, caller) && LastCall(s, caller).pos <= |LastCall(s, caller).txs|
    ensures var c, t := LastCall(s, caller), Advanced(s, caller);
            && |CallsOf(t, caller)| == |CallsOf(s, caller)|
            && LastCall(t, caller) ==
               (if c.pos == |c.txs| then c.(status := Returned(true))
                else if c.txs[c.pos].Some? && |s.queue| >= 10_000 then c.(status := Returned(false))
                else c.(pos := c.pos + 1))
            && |t.queue| == |s.queue| +
               if c.pos < |c.txs| && c.txs[c.pos].Some? && |s.queue| < 10_000 then 1 else 0
  {
  }

  /** A call never waits for another thread: whatever the others do not do, it returns after
      at most one step per element and one more, and it succeeds if the queue has room. */
  lemma CallReturns(s: State, caller: nat, txs: seq<Option<Tx>>) returns (steps: seq<Step>)
    requires !Busy(s, caller)
    ensures |steps| <= |txs| + 1 && forall i :: 0 <= i < |steps| ==> steps[i] == Advance(caller)
    ensures Run(s, [Enqueue(caller, txs)] + steps).Some?
    ensures var t := Run(s, [Enqueue(caller, txs)] + steps).value;
            && |CallsOf(t, caller)| == |CallsOf(s, caller)| + 1
            && LastCall(t, caller).status.Returned?
            && (|s.queue| + Wanted(txs) <= 10_000 ==> LastCall(t, caller).status.ok)
  {
    hide Run;
    var begin := Enqueue(caller, txs);
    var u := Begun(s, caller, txs);
    steps := Finish(u, caller);
    RunOne(s, begin);
    RunTwo(s, [begin], steps);
    assert txs[0..] == txs;
  }

  lemma Begun(s: State, caller: nat, txs: seq<Option<Tx>>) returns (u: State)
    requires !Busy(s, caller)
    ensures Next(s, Enqueue(caller, txs)) == Some(u) && Busy(u, caller) && u.queue == s.queue
    ensures |CallsOf(u, caller)| == |CallsOf(s, caller)| + 1 && LastCall(u, caller) == Call(txs, 0, Running)
  {
    u := Next(s, Enqueue(caller, txs)).value;
  }
}
