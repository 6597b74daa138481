/** The reporter as an object. Whatever its methods do, alone or with others in between, is a run of
    the state machine, so that everything proved about runs holds for the object.
  */
module ReporterAgent {
  import opened Reporter

  lemma RunOne(cap: nat, s: System, steps: seq<Step>, step: Step)
    ensures Run(cap, s, steps + [step]) == Next(cap, Run(cap, s, steps), step)
  {
    RunAppend(cap, s, steps, [step]);
    var s' := Run(cap, s, steps);
    assert Run(cap, s', [step]) == Run(cap, Next(cap, s', step), []);
  }

  predicate ByLoop(step: Step) {
    step in {LoopReceives, LoopTicks, LoopSeesCancel}
  }

  class Agent {
    const capacity: nat
    var channel: seq<Event>
    var calls: seq<Call>
    var cancelled: bool
    // Whether the background loop has ended; `Close` waits for it.
    var exited: bool
    // The local buffer of the background loop, and the history.
    ghost var loop: LoopState
    ghost var batches: seq<Batch>
    ghost var accepted: seq<Event>
    ghost var dropped: seq<Event>
    ghost var taken: seq<Taking>

    ghost function State(): System
      reads this
    {
      System(channel, loop, calls, cancelled, batches, accepted, dropped, taken)
    }

    ghost predicate Valid()
      reads this
    {
      exited <==> loop.Exited?
    }

    // A size that is not positive is replaced.
    constructor (bufferSize: int)
      ensures Valid() && State() == START && capacity == if bufferSize <= 0 then 100 else bufferSize
    {
      capacity := if bufferSize <= 0 then 100 else bufferSize;
      channel, calls, cancelled, exited := [], [], false, false;
      loop, batches, accepted, dropped, taken := Running([]), [], [], [], [];
    }

    // No error is returned even when the event is dropped.
    method ReportEvent(e: Event) returns (lost: bool)
      modifies this`channel, this`accepted, this`dropped
      ensures State() == Next(capacity, old(State()), Report(e))
      ensures lost <==> |old(channel)| >= capacity
      ensures channel == if lost then old(channel) else old(channel) + [e]
    {
      lost := |channel| >= capacity;
      if lost {
        dropped := dropped + [e];
      } else {
        channel, accepted := channel + [e], accepted + [e];
      }
    }

    ghost method SendBatch(who: Who, events: seq<Event>)
      modifies this`batches
      ensures batches == Send(old(State()), who, events).batches
    {
      if events != [] {
        batches := batches + [Batch(who, events)];
      }
    }

    // One step of a call of `Flush` or `Close`.
    method StepCall(i: nat)
      requires Valid() && i < |calls|
      modifies this`channel, this`calls, this`batches, this`accepted, this`dropped, this`taken
      ensures State() == Next(capacity, old(State()), Advance(i))
    {
      match calls[i] {
        case Cancelled =>
          var _ := ReportEvent(Stopped);
          calls := calls[i := Collecting([], true)];
        case Collecting(events, closing) =>
          if channel != [] {
            taken := taken + [Taking(channel[0], Caller(i))];
            calls := calls[i := Collecting(events + [channel[0]], closing)];
            channel := channel[1..];
          } else {
            SendBatch(Caller(i), events);
            calls := calls[i := if closing then Waiting else Returned];
          }
        case Waiting =>
          if exited {
            calls := calls[i := Returned];
          }
        case Returned =>
      }
    }

    // A call of `Flush` that nobody disturbs.
    method FlushEvents() returns (ghost steps: seq<Step>)
      requires Valid()
      modifies this`channel, this`calls, this`batches, this`accepted, this`dropped, this`taken
      ensures State() == Run(capacity, old(State()), steps)
      ensures channel == [] && calls == old(calls) + [Returned]
      ensures batches == Send(old(State()), Caller(|old(calls)|), old(channel)).batches
    {
      var i := |calls|;
      calls := calls + [Collecting([], false)];
      steps := [BeginFlush];
      RunOne(capacity, old(State()), [], BeginFlush);
      while calls[i].Collecting?
        invariant State() == Run(capacity, old(State()), steps)
        invariant |calls| == i + 1 && calls[..i] == old(calls)
        invariant loop == old(loop) && exited == old(exited)
        invariant calls[i].Collecting? ==>
          !calls[i].closing && calls[i].events + channel == old(channel) && batches == old(batches)
        invariant !calls[i].Collecting? ==>
          calls[i] == Returned && channel == [] && batches == Send(old(State()), Caller(i), old(channel)).batches
        decreases calls[i].Collecting?, |channel|
      {
        assert channel == [] && calls[i].Collecting? ==> calls[i].events == old(channel);
        RunOne(capacity, old(State()), steps, Advance(i));
        steps := steps + [Advance(i)];
        StepCall(i);
      }
      assert calls == calls[..i] + [calls[i]];
    }

    // Anything that producers and callers can do in one step.
    method OthersAct() returns (ghost step: Step)
      requires Valid()
      modifies this`channel, this`calls, this`cancelled, this`batches, this`accepted, this`dropped, this`taken
      ensures !ByLoop(step) && State() == Next(capacity, old(State()), step)
      ensures loop == old(loop) && exited == old(exited) && (old(cancelled) ==> cancelled)
    {
      var choice: int, e: Event, i: int := *, *, *;
      if choice == 0 {
        step := BeginFlush;
        calls := calls + [Collecting([], false)];
      } else if choice == 1 {
        step := BeginClose;
        cancelled, calls := true, calls + [Cancelled];
      } else if 0 <= i < |calls| {
        step := Advance(i);
        StepCall(i);
      } else {
        step := Report(e);
        var _ := ReportEvent(e);
      }
    }

    // One selection of the background loop that is not the end of the context: an event if there is
    // one, or a tick.
    method LoopSelects(buffer: seq<Event>) returns (buffer': seq<Event>, ghost step: Step)
      requires loop == Running(buffer)
      modifies this`channel, this`loop, this`batches, this`taken
      ensures State() == Next(capacity, old(State()), step) && loop == Running(buffer')
      // A tick sends what is held; an event is added, and a buffer that is full then is sent.
      ensures step == LoopTicks ==> buffer' == [] && channel == old(channel)
      ensures step == LoopTicks ==> batches == old(batches) + if buffer == [] then [] else [Batch(Loop, buffer)]
      ensures step != LoopTicks ==> old(channel) != [] && channel == old(channel)[1..]
      ensures step != LoopTicks && |buffer| + 1 < capacity ==>
        buffer' == buffer + [old(channel)[0]] && batches == old(batches)
      ensures step != LoopTicks && |buffer| + 1 >= capacity ==>
        buffer' == [] && batches == old(batches) + [Batch(Loop, buffer + [old(channel)[0]])]
      ensures old(channel) == [] ==> step == LoopTicks
    {
      var ticks: bool := *;
      if ticks || channel == [] {
        step, buffer' := LoopTicks, [];
        SendBatch(Loop, buffer);
      } else {
        step, buffer' := LoopReceives, buffer + [channel[0]];
        taken := taken + [Taking(channel[0], Loop)];
        channel := channel[1..];
        if |buffer'| >= capacity {
          SendBatch(Loop, buffer');
          buffer' := [];
        }
      }
      loop := Running(buffer');
    }

    // The loop until the context is done, with others acting before every selection.
    method Collect(rounds: nat) returns (buffer: seq<Event>, ghost steps: seq<Step>)
      requires Valid() && loop == Running([])
      modifies this
      ensures Valid() && State() == Run(capacity, old(State()), steps)
      ensures loop == Running(buffer) && cancelled && |steps| >= rounds
    {
      buffer, steps := [], [];
      var i: nat := 0;
      while i < rounds || !cancelled
        invariant Valid() && State() == Run(capacity, old(State()), steps) && loop == Running(buffer)
        invariant |steps| == i
        decreases if i < rounds then rounds - i else 0, !cancelled
      {
        var others: bool := *;
        ghost var step;
        if i >= rounds {
          // At last somebody closes the reporter.
          step := BeginClose;
          cancelled, calls := true, calls + [Cancelled];
        } else if others {
          step := OthersAct();
        } else {
          buffer, step := LoopSelects(buffer);
        }
        i := i + 1;
        RunOne(capacity, old(State()), steps, step);
        steps := steps + [step];
      }
    }

    // The whole background loop: in the end everything it took has been handed over, in order, and
    // only its last batch can be larger than the buffer size. While it drains, others can act `late`
    // times.
    method FlushLoop(rounds: nat, late: nat) returns (ghost steps: seq<Step>)
      requires Valid() && loop == Running([])
      requires capacity >= 1 && Books(capacity, State()) && BatchesFit(capacity, State())
      modifies this
      ensures Valid() && State() == Run(capacity, old(State()), steps)
      ensures channel == [] && exited
      ensures TakenBy(taken, Loop) == SentBy(batches, Loop) && BatchesFit(capacity, State())
    {
      var buffer;
      buffer, steps := Collect(rounds);
      RunOne(capacity, old(State()), steps, LoopSeesCancel);
      steps := steps + [LoopSeesCancel];
      loop := Draining(buffer);
      var left := late;
      while channel != []
        invariant Valid() && State() == Run(capacity, old(State()), steps) && loop == Draining(buffer)
        decreases left, |channel|
      {
        RunOne(capacity, old(State()), steps, LoopReceives);
        steps := steps + [LoopReceives];
        taken := taken + [Taking(channel[0], Loop)];
        buffer, channel := buffer + [channel[0]], channel[1..];
        loop := Draining(buffer);
        if left > 0 {
          left := left - 1;
          ghost var step := OthersAct();
          RunOne(capacity, old(State()), steps, step);
          steps := steps + [step];
        }
      }
      RunOne(capacity, old(State()), steps, LoopReceives);
      steps := steps + [LoopReceives];
      SendBatch(Loop, buffer);
      loop, exited := Exited, true;
      RunKeepsBooks(capacity, old(State()), steps);
      RunKeepsFit(capacity, old(State()), steps);
      assert Owned(State(), Loop);
    }
  }
}
