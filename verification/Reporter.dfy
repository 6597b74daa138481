/** The event reporter of pkg/reporter: a bounded channel, filled by any number of producers and
    drained by the background loop and by any number of calls of `Flush` and `Close`, interleaved in
    any order.

    One step is one channel operation together with the local work that follows it. Handing a batch
    to `sendBatch` is where events leave the model: whether the request succeeds is not looked at.
  */
module Reporter {

  datatype Event = Reported(id: int) | Stopped

  // Who takes events out of the channel.
  datatype Who = Loop | Caller(index: nat)

  datatype LoopState = Running(buffer: seq<Event>) | Draining(buffer: seq<Event>) | Exited

  // A call of `Flush` or `Close`. The latter cancels, reports that the agent stopped, collects and
  // then waits for the loop.
  datatype Call = Cancelled | Collecting(events: seq<Event>, closing: bool) | Waiting | Returned

  datatype Batch = Batch(who: Who, events: seq<Event>)

  datatype Taking = Taking(event: Event, who: Who)

  // The last four fields are the history of the run.
  datatype System = System(
    channel: seq<Event>,
    loop: LoopState,
    calls: seq<Call>,
    cancelled: bool,
    batches: seq<Batch>,
    accepted: seq<Event>,
    dropped: seq<Event>,
    taken: seq<Taking>)

  const START := System([], Running([]), [], false, [], [], [], [])

  datatype Step =
    | Report(event: Event)
    | BeginFlush
    | BeginClose
    | LoopReceives
    | LoopTicks
    | LoopSeesCancel
    | Advance(index: nat)

  // ---------------------------------------------------------------- the steps

  function Put(cap: nat, s: System, e: Event): System {
    if |s.channel| < cap then s.(channel := s.channel + [e], accepted := s.accepted + [e])
    else s.(dropped := s.dropped + [e])
  }

  function Take(s: System, who: Who): System
    requires s.channel != []
  {
    s.(channel := s.channel[1..], taken := s.taken + [Taking(s.channel[0], who)])
  }

  function Send(s: System, who: Who, events: seq<Event>): System {
    if events == [] then s else s.(batches := s.batches + [Batch(who, events)])
  }

  function LoopStep(cap: nat, s: System): System {
    match s.loop
    case Running(buffer) =>
      if s.channel == [] then s else
        var buffer' := buffer + [s.channel[0]];
        if |buffer'| >= cap then Send(Take(s, Loop), Loop, buffer').(loop := Running([]))
        else Take(s, Loop).(loop := Running(buffer'))
    case Draining(buffer) =>
      if s.channel == [] then Send(s, Loop, buffer).(loop := Exited)
      else Take(s, Loop).(loop := Draining(buffer + [s.channel[0]]))
    case Exited => s
  }

  function CallStep(cap: nat, s: System, i: nat): System
    requires i < |s.calls|
  {
    match s.calls[i]
    case Cancelled => Put(cap, s, Stopped).(calls := s.calls[i := Collecting([], true)])
    case Collecting(events, closing) =>
      if s.channel == [] then Send(s, Caller(i), events).(calls := s.calls[i := if closing then Waiting else Returned])
      else Take(s, Caller(i)).(calls := s.calls[i := Collecting(events + [s.channel[0]], closing)])
    case Waiting => if s.loop.Exited? then s.(calls := s.calls[i := Returned]) else s
    case Returned => s
  }

  function Next(cap: nat, s: System, step: Step): System {
    match step
    case Report(e) => Put(cap, s, e)
    case BeginFlush => s.(calls := s.calls + [Collecting([], false)])
    case BeginClose => s.(cancelled := true, calls := s.calls + [Cancelled])
    case LoopReceives => LoopStep(cap, s)
    case LoopTicks => if s.loop.Running? then Send(s, Loop, s.loop.buffer).(loop := Running([])) else s
    case LoopSeesCancel => if s.loop.Running? && s.cancelled then s.(loop := Draining(s.loop.buffer)) else s
    case Advance(i) => if i < |s.calls| then CallStep(cap, s, i) else s
  }

  function Run(cap: nat, s: System, steps: seq<Step>): System
    decreases |steps|
  {
    if steps == [] then s else Run(cap, Next(cap, s, steps[0]), steps[1..])
  }

  lemma {:induction false} RunAppend(cap: nat, s: System, a: seq<Step>, b: seq<Step>)
    ensures Run(cap, s, a + b) == Run(cap, Run(cap, s, a), b)
    decreases |a|
  {
    if a == [] {
      assert a + b == b;
    } else {
      assert (a + b)[0] == a[0] && (a + b)[1..] == a[1..] + b;
      RunAppend(cap, Next(cap, s, a[0]), a[1..], b);
    }
  }

  // ---------------------------------------------------------------- books

  function Events(taken: seq<Taking>): seq<Event> {
    seq(|taken|, k requires 0 <= k < |taken| => taken[k].event)
  }

  // What one drainer took, oldest first.
  function TakenBy(taken: seq<Taking>, who: Who): seq<Event> {
    if taken == [] then [] else
      var last := taken[|taken| - 1];
      TakenBy(taken[..|taken| - 1], who) + if last.who == who then [last.event] else []
  }

  // What one drainer sent, batch after batch.
  function SentBy(batches: seq<Batch>, who: Who): seq<Event> {
    if batches == [] then [] else
      var last := batches[|batches| - 1];
      SentBy(batches[..|batches| - 1], who) + if last.who == who then last.events else []
  }

  function Holding(s: System, who: Who): seq<Event> {
    match who
    case Loop => if s.loop.Exited? then [] else s.loop.buffer
    case Caller(i) => if i < |s.calls| && s.calls[i].Collecting? then s.calls[i].events else []
  }

  // Events leave the channel in the order in which they were accepted, each to one drainer, and a
  // drainer sends what it took, in order.
  predicate InOrder(s: System) {
    s.accepted == Events(s.taken) + s.channel
  }

  predicate Owned(s: System, who: Who) {
    TakenBy(s.taken, who) == SentBy(s.batches, who) + Holding(s, who)
  }

  ghost predicate Books(cap: nat, s: System) {
    && |s.channel| <= cap
    && InOrder(s)
    && (forall who :: Owned(s, who))
    && (s.loop.Running? ==> |s.loop.buffer| < cap)
  }

  lemma TakeOne(s: System, who: Who)
    requires s.channel != [] && InOrder(s)
    ensures InOrder(Take(s, who))
    ensures forall w :: TakenBy(Take(s, who).taken, w) == TakenBy(s.taken, w) + if w == who then [s.channel[0]] else []
  {
    var t := Take(s, who).taken;
    assert t[..|t| - 1] == s.taken;
    assert Events(t) == Events(s.taken) + [s.channel[0]];
    assert s.channel == [s.channel[0]] + s.channel[1..];
  }

  lemma SendOne(s: System, who: Who, events: seq<Event>)
    ensures forall w ::
      SentBy(Send(s, who, events).batches, w) == SentBy(s.batches, w) + if w == who then events else []
  {
    if events != [] {
      var b := Send(s, who, events).batches;
      assert b[..|b| - 1] == s.batches;
    }
  }

  lemma NextKeepsBooks(cap: nat, s: System, step: Step)
    requires cap >= 1 && Books(cap, s)
    ensures Books(cap, Next(cap, s, step))
  {
    var s' := Next(cap, s, step);
    if s.channel != [] {
      TakeOne(s, Loop);
      if step.Advance? {
        TakeOne(s, Caller(step.index));
      }
    }
    forall who
      ensures Owned(s', who)
    {
      assert Owned(s, who);
      NextKeepsOwned(cap, s, step, who);
    }
  }

  // A drainer adds to what it holds, or hands over all of it.
  lemma TakingKeepsOwned(s: System, s': System, drainer: Who, who: Who)
    requires s.channel != [] && Owned(s, who) && InOrder(s)
    requires s'.taken == Take(s, drainer).taken && s'.batches == s.batches
    requires Holding(s', who) == Holding(s, who) + if who == drainer then [s.channel[0]] else []
    ensures Owned(s', who)
  {
    TakeOne(s, drainer);
    var more := if who == drainer then [s.channel[0]] else [];
    assert SentBy(s.batches, who) + Holding(s', who) == TakenBy(s.taken, who) + more;
  }

  lemma SendingKeepsOwned(s: System, s': System, drainer: Who, who: Who)
    requires Owned(s, who)
    requires s'.taken == s.taken && s'.batches == Send(s, drainer, Holding(s, drainer)).batches
    requires Holding(s', who) == if who == drainer then [] else Holding(s, who)
    ensures Owned(s', who)
  {
    SendOne(s, drainer, Holding(s, drainer));
    assert SentBy(s'.batches, who) + Holding(s', who) == SentBy(s.batches, who) + Holding(s, who);
  }

  lemma RunningKeepsOwned(cap: nat, s: System, who: Who)
    requires InOrder(s) && Owned(s, who) && s.loop.Running? && s.channel != []
    ensures Owned(LoopStep(cap, s), who)
  {
    var held := Take(s, Loop).(loop := Running(s.loop.buffer + [s.channel[0]]));
    TakingKeepsOwned(s, held, Loop, who);
    if |held.loop.buffer| >= cap {
      SendingKeepsOwned(held, LoopStep(cap, s), Loop, who);
    }
  }

  lemma LoopKeepsOwned(cap: nat, s: System, who: Who)
    requires Books(cap, s) && Owned(s, who)
    ensures Owned(LoopStep(cap, s), who)
  {
    var s' := LoopStep(cap, s);
    if s.channel != [] && s.loop.Running? {
      RunningKeepsOwned(cap, s, who);
    } else if s.loop.Draining? {
      if s.channel != [] {
        TakingKeepsOwned(s, s', Loop, who);
      } else {
        SendingKeepsOwned(s, s', Loop, who);
      }
    }
  }

  lemma CallKeepsOwned(cap: nat, s: System, i: nat, who: Who)
    requires Books(cap, s) && Owned(s, who) && i < |s.calls|
    ensures Owned(CallStep(cap, s, i), who)
  {
    var s' := CallStep(cap, s, i);
    if s.calls[i].Collecting? {
      if s.channel != [] {
        TakingKeepsOwned(s, s', Caller(i), who);
      } else {
        SendingKeepsOwned(s, s', Caller(i), who);
      }
    }
  }

  lemma NextKeepsOwned(cap: nat, s: System, step: Step, who: Who)
    requires Books(cap, s) && Owned(s, who)
    ensures Owned(Next(cap, s, step), who)
  {
    match step
    case LoopReceives => LoopKeepsOwned(cap, s, who);
    case LoopTicks =>
      if s.loop.Running? {
        SendingKeepsOwned(s, Next(cap, s, step), Loop, who);
      }
    case Advance(i) =>
      if i < |s.calls| {
        CallKeepsOwned(cap, s, i, who);
      }
    case _ =>
  }

  lemma {:induction false} RunKeepsBooks(cap: nat, s: System, steps: seq<Step>)
    requires cap >= 1 && Books(cap, s)
    ensures Books(cap, Run(cap, s, steps))
    decreases |steps|
  {
    if steps != [] {
      NextKeepsBooks(cap, s, steps[0]);
      RunKeepsBooks(cap, Next(cap, s, steps[0]), steps[1..]);
    }
  }

  // ---------------------------------------------------------------- conservation

  function Count(events: seq<Event>, e: Event): nat {
    if events == [] then 0 else Count(events[..|events| - 1], e) + if events[|events| - 1] == e then 1 else 0
  }

  lemma {:induction false} CountAppend(a: seq<Event>, b: seq<Event>, e: Event)
    ensures Count(a + b, e) == Count(a, e) + Count(b, e)
    decreases |b|
  {
    if b == [] {
      assert a + b == a;
    } else {
      assert (a + b)[..|a + b| - 1] == a + b[..|b| - 1];
      CountAppend(a, b[..|b| - 1], e);
    }
  }

  function HeldBy(c: Call): seq<Event> {
    if c.Collecting? then c.events else []
  }

  function HeldByCalls(calls: seq<Call>, e: Event): nat {
    if calls == [] then 0 else HeldByCalls(calls[..|calls| - 1], e) + Count(HeldBy(calls[|calls| - 1]), e)
  }

  function Sent(batches: seq<Batch>, e: Event): nat {
    if batches == [] then 0 else Sent(batches[..|batches| - 1], e) + Count(batches[|batches| - 1].events, e)
  }

  // As often as an event was accepted, it is in the channel, in the loop's buffer, in the list of a
  // call, or in a batch.
  predicate Conserved(s: System, e: Event) {
    Count(s.accepted, e)
    == Count(s.channel, e) + Count(Holding(s, Loop), e) + HeldByCalls(s.calls, e) + Sent(s.batches, e)
  }

  lemma {:induction false} HeldUpdate(calls: seq<Call>, i: nat, c: Call, e: Event)
    requires i < |calls|
    ensures HeldByCalls(calls[i := c], e) + Count(HeldBy(calls[i]), e) == HeldByCalls(calls, e) + Count(HeldBy(c), e)
    decreases |calls|
  {
    var last := |calls| - 1;
    if i < last {
      HeldUpdate(calls[..last], i, c, e);
      assert calls[i := c][..last] == calls[..last][i := c];
    } else {
      assert calls[i := c][..last] == calls[..last];
    }
  }

  lemma HeldAppend(calls: seq<Call>, c: Call, e: Event)
    ensures HeldByCalls(calls + [c], e) == HeldByCalls(calls, e) + Count(HeldBy(c), e)
  {
    assert (calls + [c])[..|calls|] == calls;
  }

  lemma SentCount(s: System, who: Who, events: seq<Event>, e: Event)
    ensures Sent(Send(s, who, events).batches, e) == Sent(s.batches, e) + Count(events, e)
  {
    if events != [] {
      var b := Send(s, who, events).batches;
      assert b[..|b| - 1] == s.batches;
    }
  }

  lemma TakenCount(s: System, list: seq<Event>, e: Event)
    requires s.channel != []
    ensures Count(s.channel[1..], e) + Count(list + [s.channel[0]], e) == Count(s.channel, e) + Count(list, e)
  {
    assert s.channel == [s.channel[0]] + s.channel[1..];
    CountAppend([s.channel[0]], s.channel[1..], e);
    CountAppend(list, [s.channel[0]], e);
  }

  lemma LoopTakes(s: System, s': System, e: Event)
    requires Conserved(s, e) && s.channel != []
    requires s'.accepted == s.accepted && s'.calls == s.calls && s'.batches == s.batches && s'.channel == s.channel[1..]
    requires Holding(s', Loop) == Holding(s, Loop) + [s.channel[0]]
    ensures Conserved(s', e)
  {
    TakenCount(s, Holding(s, Loop), e);
  }

  lemma LoopSends(s: System, s': System, e: Event)
    requires Conserved(s, e)
    requires s'.accepted == s.accepted && s'.calls == s.calls && s'.channel == s.channel
    requires s'.batches == Send(s, Loop, Holding(s, Loop)).batches && Holding(s', Loop) == []
    ensures Conserved(s', e)
  {
    SentCount(s, Loop, Holding(s, Loop), e);
  }

  lemma LoopConserves(cap: nat, s: System, e: Event)
    requires Conserved(s, e)
    ensures Conserved(LoopStep(cap, s), e)
  {
    var s' := LoopStep(cap, s);
    if s.channel != [] && !s.loop.Exited? {
      var held := Take(s, Loop).(loop := s.loop.(buffer := s.loop.buffer + [s.channel[0]]));
      LoopTakes(s, held, e);
      if s' != held {
        LoopSends(held, s', e);
      }
    } else if s.loop.Draining? {
      LoopSends(s, s', e);
    }
  }

  lemma Accepts(s: System, s': System, put: Event, e: Event)
    requires Conserved(s, e)
    requires s'.accepted == s.accepted + [put] && s'.channel == s.channel + [put]
    requires s'.loop == s.loop && s'.calls == s.calls && s'.batches == s.batches
    ensures Conserved(s', e)
  {
    CountAppend(s.accepted, [put], e);
    CountAppend(s.channel, [put], e);
  }

  lemma PutConserves(cap: nat, s: System, e: Event, put: Event)
    requires Conserved(s, e)
    ensures Conserved(Put(cap, s, put), e)
  {
    if |s.channel| < cap {
      Accepts(s, Put(cap, s, put), put, e);
    }
  }

  lemma CallTakes(s: System, s': System, i: nat, closing: bool, e: Event)
    requires Conserved(s, e) && s.channel != [] && i < |s.calls|
    requires s'.accepted == s.accepted && s'.loop == s.loop && s'.batches == s.batches && s'.channel == s.channel[1..]
    requires s'.calls == s.calls[i := Collecting(HeldBy(s.calls[i]) + [s.channel[0]], closing)]
    ensures Conserved(s', e)
  {
    TakenCount(s, HeldBy(s.calls[i]), e);
    HeldUpdate(s.calls, i, s'.calls[i], e);
  }

  lemma CallSends(s: System, s': System, i: nat, c: Call, e: Event)
    requires Conserved(s, e) && i < |s.calls| && HeldBy(c) == []
    requires s'.accepted == s.accepted && s'.loop == s.loop && s'.channel == s.channel
    requires s'.batches == Send(s, Caller(i), HeldBy(s.calls[i])).batches && s'.calls == s.calls[i := c]
    ensures Conserved(s', e)
  {
    SentCount(s, Caller(i), HeldBy(s.calls[i]), e);
    HeldUpdate(s.calls, i, c, e);
  }

  lemma StateChanges(s: System, i: nat, c: Call, e: Event)
    requires Conserved(s, e) && i < |s.calls| && HeldBy(c) == HeldBy(s.calls[i])
    ensures Conserved(s.(calls := s.calls[i := c]), e)
  {
    HeldUpdate(s.calls, i, c, e);
  }

  lemma CollectingConserves(cap: nat, s: System, i: nat, e: Event)
    requires Conserved(s, e) && i < |s.calls| && s.calls[i].Collecting?
    ensures Conserved(CallStep(cap, s, i), e)
  {
    var s' := CallStep(cap, s, i);
    if s.channel != [] {
      CallTakes(s, s', i, s.calls[i].closing, e);
    } else {
      CallSends(s, s', i, s'.calls[i], e);
    }
  }

  lemma CallConserves(cap: nat, s: System, i: nat, e: Event)
    requires Conserved(s, e) && i < |s.calls|
    ensures Conserved(CallStep(cap, s, i), e)
  {
    match s.calls[i]
    case Cancelled =>
      PutConserves(cap, s, e, Stopped);
      StateChanges(Put(cap, s, Stopped), i, Collecting([], true), e);
    case Collecting(_, _) => CollectingConserves(cap, s, i, e);
    case Waiting => StateChanges(s, i, Returned, e);
    case Returned =>
  }

  lemma NextConserves(cap: nat, s: System, step: Step, e: Event)
    requires Conserved(s, e)
    ensures Conserved(Next(cap, s, step), e)
  {
    match step
    case Report(put) => PutConserves(cap, s, e, put);
    case BeginFlush => HeldAppend(s.calls, Collecting([], false), e);
    case BeginClose => HeldAppend(s.calls, Cancelled, e);
    case LoopReceives => LoopConserves(cap, s, e);
    case LoopTicks =>
      if s.loop.Running? {
        SentCount(s, Loop, s.loop.buffer, e);
      }
    case LoopSeesCancel =>
    case Advance(i) =>
      if i < |s.calls| {
        CallConserves(cap, s, i, e);
      }
  }

  lemma {:induction false} RunConserves(cap: nat, s: System, steps: seq<Step>, e: Event)
    requires Conserved(s, e)
    ensures Conserved(Run(cap, s, steps), e)
    decreases |steps|
  {
    if steps != [] {
      NextConserves(cap, s, steps[0], e);
      RunConserves(cap, Next(cap, s, steps[0]), steps[1..], e);
    }
  }

  // No batch is empty, and only the batch that the loop sends last, on its way out, can be larger
  // than the capacity.
  predicate BatchesFit(cap: nat, s: System) {
    && (s.loop.Running? ==> |s.loop.buffer| < cap)
    && (forall k :: 0 <= k < |s.batches| ==> s.batches[k].events != [])
    && (forall k :: 0 <= k < |s.batches| && s.batches[k].who == Loop && |s.batches[k].events| > cap ==>
          s.loop.Exited? && forall m :: k < m < |s.batches| ==> s.batches[m].who != Loop)
  }

  lemma LoopKeepsFit(cap: nat, s: System)
    requires cap >= 1 && BatchesFit(cap, s)
    ensures BatchesFit(cap, LoopStep(cap, s))
  {
  }

  lemma CallKeepsFit(cap: nat, s: System, i: nat)
    requires BatchesFit(cap, s) && i < |s.calls|
    ensures BatchesFit(cap, CallStep(cap, s, i))
  {
  }

  lemma NextKeepsFit(cap: nat, s: System, step: Step)
    requires cap >= 1 && BatchesFit(cap, s)
    ensures BatchesFit(cap, Next(cap, s, step))
  {
    if step.LoopReceives? {
      LoopKeepsFit(cap, s);
    } else if step.Advance? && step.index < |s.calls| {
      CallKeepsFit(cap, s, step.index);
    }
  }

  lemma {:induction false} RunKeepsFit(cap: nat, s: System, steps: seq<Step>)
    requires cap >= 1 && BatchesFit(cap, s)
    ensures BatchesFit(cap, Run(cap, s, steps))
    decreases |steps|
  {
    if steps != [] {
      NextKeepsFit(cap, s, steps[0]);
      RunKeepsFit(cap, Next(cap, s, steps[0]), steps[1..]);
    }
  }

  // ---------------------------------------------------------------- what the loop sends, and when

  // A tick of the running loop sends what the loop holds, if anything, and leaves it with nothing.
  lemma TickSends(cap: nat, s: System)
    requires s.loop.Running?
    ensures var s' := Next(cap, s, LoopTicks);
      && s'.loop == Running([]) && s'.channel == s.channel && s'.taken == s.taken
      && s'.batches == s.batches + if s.loop.buffer == [] then [] else [Batch(Loop, s.loop.buffer)]
  {
  }

  // After any run that ends in a tick of the running loop, everything the loop ever took is sent.
  lemma NothingHeldAfterTick(cap: nat, s: System, steps: seq<Step>)
    requires Books(cap, s) && cap >= 1
    requires Run(cap, s, steps).loop.Running?
    ensures var s' := Run(cap, s, steps + [LoopTicks]); TakenBy(s'.taken, Loop) == SentBy(s'.batches, Loop)
  {
    var before := Run(cap, s, steps);
    RunKeepsBooks(cap, s, steps + [LoopTicks]);
    RunAppend(cap, s, steps, [LoopTicks]);
    assert Run(cap, before, [LoopTicks]) == Run(cap, Next(cap, before, LoopTicks), []);
    assert Owned(Run(cap, s, steps + [LoopTicks]), Loop);
  }

  // Every batch of the running loop but those of its ticks is exactly as large as the buffer may be.
  predicate FullBatches(cap: nat, s: System) {
    && (s.loop.Running? ==> |s.loop.buffer| < cap)
    && (!s.loop.Exited? ==>
      forall k :: 0 <= k < |s.batches| && s.batches[k].who == Loop ==> |s.batches[k].events| == cap)
  }

  lemma NextKeepsFull(cap: nat, s: System, step: Step)
    requires cap >= 1 && FullBatches(cap, s) && step != LoopTicks
    ensures FullBatches(cap, Next(cap, s, step))
  {
  }

  lemma {:induction false} WithoutTicksBatchesAreFull(cap: nat, s: System, steps: seq<Step>)
    requires cap >= 1 && FullBatches(cap, s)
    requires forall k :: 0 <= k < |steps| ==> steps[k] != LoopTicks
    ensures FullBatches(cap, Run(cap, s, steps))
    decreases |steps|
  {
    if steps != [] {
      NextKeepsFull(cap, s, steps[0]);
      WithoutTicksBatchesAreFull(cap, Next(cap, s, steps[0]), steps[1..]);
    }
  }

  // The loop runs until somebody closes the reporter, and is not told to stop by anything else.
  predicate StopsWhenClosed(s: System) {
    !s.cancelled ==> s.loop.Running?
  }

  lemma {:induction false} LoopRunsUntilClosed(cap: nat, s: System, steps: seq<Step>)
    requires StopsWhenClosed(s)
    ensures StopsWhenClosed(Run(cap, s, steps))
    ensures Run(cap, s, steps).cancelled <==> s.cancelled || BeginClose in steps
    decreases |steps|
  {
    if steps != [] {
      assert steps == [steps[0]] + steps[1..];
      LoopRunsUntilClosed(cap, Next(cap, s, steps[0]), steps[1..]);
    }
  }

  // ---------------------------------------------------------------- drops

  lemma ReportsGrowBy(cap: nat, s: System, step: Step)
    ensures s.accepted <= Next(cap, s, step).accepted && s.dropped <= Next(cap, s, step).dropped
  {
  }

  // Events are only ever added to the two lists of reported events.
  lemma {:induction false} ReportsGrow(cap: nat, s: System, steps: seq<Step>)
    ensures s.accepted <= Run(cap, s, steps).accepted && s.dropped <= Run(cap, s, steps).dropped
    decreases |steps|
  {
    if steps != [] {
      ReportsGrowBy(cap, s, steps[0]);
      ReportsGrow(cap, Next(cap, s, steps[0]), steps[1..]);
    }
  }

  // The steps that offer an event to the channel.
  predicate Offers(s: System, step: Step) {
    step.Report? || (step.Advance? && step.index < |s.calls| && s.calls[step.index].Cancelled?)
  }

  lemma {:induction false} ChannelWithinCapacity(cap: nat, s: System, steps: seq<Step>)
    requires |s.channel| <= cap
    ensures |Run(cap, s, steps).channel| <= cap
    decreases |steps|
  {
    if steps != [] {
      ChannelWithinCapacity(cap, Next(cap, s, steps[0]), steps[1..]);
    }
  }

  // Of all the steps of a run, exactly those drop an event that offer one to a full channel.
  lemma DropsIffFull(cap: nat, s: System, steps: seq<Step>, k: nat)
    requires |s.channel| <= cap && k < |steps|
    ensures var before, after := Run(cap, s, steps[..k]), Run(cap, s, steps[..k + 1]);
      after.dropped != before.dropped <==> Offers(before, steps[k]) && |before.channel| == cap
  {
    assert steps[..k + 1] == steps[..k] + [steps[k]];
    RunAppend(cap, s, steps[..k], [steps[k]]);
    ChannelWithinCapacity(cap, s, steps[..k]);
    var before := Run(cap, s, steps[..k]);
    assert Run(cap, before, [steps[k]]) == Run(cap, Next(cap, before, steps[k]), []);
  }

  // Hence a run that loses an event on the way in has a step that meets a full channel and drops.
  lemma {:induction false} DropsOnlyWhenFull(cap: nat, s: System, steps: seq<Step>) returns (k: nat)
    requires |s.channel| <= cap && Run(cap, s, steps).dropped != s.dropped
    ensures k < |steps| && |Run(cap, s, steps[..k]).channel| == cap
    ensures Run(cap, s, steps[..k]).dropped == s.dropped
    ensures Run(cap, s, steps[..k + 1]).dropped != s.dropped
    decreases |steps|
  {
    var s' := Next(cap, s, steps[0]);
    if s'.dropped != s.dropped {
      k := 0;
      DropsIffFull(cap, s, steps, 0);
      assert Run(cap, s, [steps[0]]) == Run(cap, s', []) && steps[..1] == [steps[0]];
    } else {
      ChannelWithinCapacity(cap, s, [steps[0]]);
      k := DropsOnlyWhenFull(cap, s', steps[1..]);
      assert steps[..k + 1][0] == steps[0] && steps[..k + 1][1..] == steps[1..][..k];
      assert steps[..k + 2][0] == steps[0] && steps[..k + 2][1..] == steps[1..][..k + 1];
      k := k + 1;
    }
  }

  // ---------------------------------------------------------------- closing

  // How far a closing call has got, provided nothing is accepted meanwhile.
  predicate ClosePhase(s: System, i: nat) {
    && i < |s.calls|
    && match s.calls[i]
       case Cancelled => false
       case Collecting(_, closing) => closing
       case Waiting => s.channel == []
       case Returned => s.channel == [] && s.loop.Exited?
  }

  lemma ClosePhaseStep(cap: nat, s: System, i: nat, step: Step)
    requires ClosePhase(s, i) && Next(cap, s, step).accepted == s.accepted
    ensures ClosePhase(Next(cap, s, step), i)
  {
    if s.channel == [] {
      EmptyStays(cap, s, step);
    }
  }

  lemma EmptyStays(cap: nat, s: System, step: Step)
    requires s.channel == [] && Next(cap, s, step).accepted == s.accepted
    ensures Next(cap, s, step).channel == []
  {
  }

  lemma {:induction false} CloseAdvances(cap: nat, s: System, i: nat, steps: seq<Step>)
    requires ClosePhase(s, i) && Run(cap, s, steps).accepted == s.accepted
    ensures ClosePhase(Run(cap, s, steps), i)
    decreases |steps|
  {
    if steps != [] {
      var s' := Next(cap, s, steps[0]);
      ReportsGrowBy(cap, s, steps[0]);
      ReportsGrow(cap, s', steps[1..]);
      ClosePhaseStep(cap, s, i, steps[0]);
      CloseAdvances(cap, s', i, steps[1..]);
    }
  }

  // When a `Close` returns and nothing was accepted after its own report, the channel and the loop
  // are empty: every accepted event has been sent, or is in the hands of another call.
  lemma CloseDrains(cap: nat, s: System, i: nat, steps: seq<Step>, e: Event)
    requires Conserved(s, e) && i < |s.calls| && s.calls[i] == Collecting([], true)
    requires var s' := Run(cap, s, steps);
      s'.accepted == s.accepted && i < |s'.calls| && s'.calls[i] == Returned
    ensures var s' := Run(cap, s, steps);
      s'.channel == [] && s'.loop.Exited? && Count(s.accepted, e) == HeldByCalls(s'.calls, e) + Sent(s'.batches, e)
  {
    CloseAdvances(cap, s, i, steps);
    RunConserves(cap, s, steps, e);
  }

  // Every reachable state.
  lemma EveryRun(cap: nat, steps: seq<Step>, e: Event)
    requires cap >= 1
    ensures Books(cap, Run(cap, START, steps))
    ensures BatchesFit(cap, Run(cap, START, steps))
    ensures Conserved(Run(cap, START, steps), e)
  {
    assert forall who :: Owned(START, who);
    RunKeepsBooks(cap, START, steps);
    RunKeepsFit(cap, START, steps);
    RunConserves(cap, START, steps, e);
  }

  // A call that has begun to collect can empty the channel by itself.
  lemma {:induction false} CollectAll(cap: nat, s: System, i: nat) returns (steps: seq<Step>)
    requires i < |s.calls| && s.calls[i].Collecting?
    ensures var c := s.calls[i];
      Run(cap, s, steps) == Send(s, Caller(i), c.events + s.channel).(
        channel := [],
        calls := s.calls[i := if c.closing then Waiting else Returned],
        taken := Run(cap, s, steps).taken)
    decreases |s.channel|
  {
    var c, s' := s.calls[i], Next(cap, s, Advance(i));
    if s.channel == [] {
      assert c.events + s.channel == c.events;
      assert [Advance(i)][1..] == [];
      steps := [Advance(i)];
    } else {
      steps := CollectAll(cap, s', i);
      assert s'.calls[i].events + s'.channel == c.events + s.channel;
      assert ([Advance(i)] + steps)[1..] == steps;
      steps := [Advance(i)] + steps;
    }
  }

  // `Flush` on its own sends what the channel holds, as one batch, in order.
  lemma FlushAlone(cap: nat, s: System) returns (steps: seq<Step>)
    ensures var s' := Run(cap, s, [BeginFlush] + steps);
      && s'.channel == [] && s'.loop == s.loop
      && s'.batches == Send(s, Caller(|s.calls|), s.channel).batches
      && s'.calls == s.calls + [Returned]
  {
    var s1 := Next(cap, s, BeginFlush);
    steps := CollectAll(cap, s1, |s.calls|);
    assert ([BeginFlush] + steps)[1..] == steps;
    assert [] + s1.channel == s.channel;
  }

  // Once the channel is empty, the cancelled loop comes to its end.
  lemma LoopCanExit(cap: nat, s: System) returns (steps: seq<Step>)
    requires s.cancelled && s.channel == []
    ensures var s' := Run(cap, s, steps);
      s'.loop.Exited? && s'.channel == [] && s'.calls == s.calls && s'.accepted == s.accepted
  {
    var s1 := Next(cap, s, LoopSeesCancel);
    steps := [LoopSeesCancel, LoopReceives];
    assert steps[1..] == [LoopReceives] && steps[1..][1..] == [];
    assert Run(cap, s, steps) == Run(cap, s1, [LoopReceives]) == Next(cap, s1, LoopReceives);
  }

  // `Close` never gets stuck: from whatever state it is in, some continuation in which nothing is
  // reported but its own event lets it return.
  lemma CloseCanReturn(cap: nat, s: System, i: nat) returns (steps: seq<Step>)
    requires i < |s.calls| && (s.calls[i].Cancelled? || ClosePhase(s, i)) && s.cancelled
    ensures var s' := Run(cap, s, steps);
      && s'.accepted == (if s.calls[i].Cancelled? then Put(cap, s, Stopped) else s).accepted
      && i < |s'.calls| && s'.calls[i] == Returned
  {
    if s.calls[i].Cancelled? {
      var rest := FinishesClosing(cap, Next(cap, s, Advance(i)), i);
      steps := [Advance(i)] + rest;
      assert steps[1..] == rest;
    } else {
      steps := FinishesClosing(cap, s, i);
    }
  }

  lemma FinishesClosing(cap: nat, s: System, i: nat) returns (steps: seq<Step>)
    requires ClosePhase(s, i) && s.cancelled
    ensures var s' := Run(cap, s, steps);
      s'.accepted == s.accepted && i < |s'.calls| && s'.calls[i] == Returned
  {
    var a: seq<Step>, b: seq<Step> := [], [];
    if s.calls[i].Collecting? {
      a := CollectAll(cap, s, i);
    }
    var s1 := Run(cap, s, a);
    if !s1.loop.Exited? {
      b := LoopCanExit(cap, s1);
    }
    var s2 := Run(cap, s1, b);
    RunAppend(cap, s, a, b);
    RunAppend(cap, s, a + b, [Advance(i)]);
    assert [Advance(i)][1..] == [];
    assert Run(cap, s2, [Advance(i)]) == Next(cap, s2, Advance(i));
    steps := a + b + [Advance(i)];
  }

  // After the loop and every call have ended, a report is still accepted and then stays in the
  // channel, unless a new call of `Flush` or `Close` comes.
  lemma {:induction false} LateReportsAreStranded(cap: nat, s: System, steps: seq<Step>)
    requires s.loop.Exited? && forall i :: 0 <= i < |s.calls| ==> s.calls[i] == Returned
    requires forall k :: 0 <= k < |steps| ==> !steps[k].BeginFlush? && !steps[k].BeginClose?
    ensures s.channel <= Run(cap, s, steps).channel && Run(cap, s, steps).batches == s.batches
    decreases |steps|
  {
    if steps != [] {
      var s' := Next(cap, s, steps[0]);
      assert s.channel <= s'.channel && s'.calls == s.calls;
      LateReportsAreStranded(cap, s', steps[1..]);
    }
  }
}
