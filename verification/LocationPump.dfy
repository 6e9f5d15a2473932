/** The location pump: a depth-one queue between a producer that never waits and a task that sends
    frames to the socket and may be held up by the client for any length of time. */
module LocationPump {

  /** The JSON text of one location frame. */
  type Frame = string

  /** What can happen, in any order. Take and Done are the two halves of one turn of the pump task:
      `await queue.get()` and `await self.send(...)`; a send that fails ends the pump. */
  datatype Event = Start | Queue(frame: Frame) | Take | Done(ok: bool) | Stop

  /** The consumer's fields, and what has happened to each frame: `taken` and `sent` hold positions
      in `enqueued`. */
  datatype Pump = Pump(started: bool, running: bool, sending: bool, queue: seq<Frame>, dropped: nat,
                       enqueued: seq<Frame>, taken: seq<nat>, sent: seq<nat>)

  function Fresh(): Pump {
    Pump(false, false, false, [], 0, [], [], [])
  }

  /** One event. An event that cannot happen (taking from an empty queue, say) changes nothing. */
  function Next(p: Pump, event: Event): Pump {
    match event
    case Start => if p.started then p else p.(started := true, running := true)
    case Queue(frame) =>
      if !p.started then p
      else p.(queue := [frame], dropped := p.dropped + |p.queue|, enqueued := p.enqueued + [frame])
    case Take =>
      if !p.running || p.sending || p.queue == [] || p.enqueued == [] then p
      else p.(sending := true, queue := p.queue[1..], taken := p.taken + [|p.enqueued| - 1])
    case Done(ok) =>
      if !p.running || !p.sending || p.taken == [] then p
      else if ok then p.(sending := false, sent := p.sent + [p.taken[|p.taken| - 1]])
      else p.(sending := false, running := false)
    case Stop => p.(running := false, sending := false)
  }

  function Run(events: seq<Event>): Pump {
    if events == [] then Fresh() else Next(Run(events[..|events| - 1]), events[|events| - 1])
  }

  // ---- Read off the events alone -------------------------------------------------------------------

  /** The frames handed to a started pump, oldest first. */
  function Offered(events: seq<Event>): seq<Frame> {
    if events == [] then []
    else
      var before, last := events[..|events| - 1], events[|events| - 1];
      if last.Queue? && Start in before then Offered(before) + [last.frame] else Offered(before)
  }

  predicate Increasing(positions: seq<nat>, bound: nat) {
    && (forall i :: 0 <= i < |positions| ==> positions[i] < bound)
    && forall i, j :: 0 <= i < j < |positions| ==> positions[i] < positions[j]
  }

  /** The frames the client got. */
  function Delivered(p: Pump): seq<Frame> {
    seq(|p.sent|, i requires 0 <= i < |p.sent| => if p.sent[i] < |p.enqueued| then p.enqueued[p.sent[i]] else "")
  }

  predicate Inv(p: Pump) {
    && |p.queue| <= 1
    && |p.enqueued| == |p.taken| + |p.queue| + p.dropped
    && Increasing(p.taken, |p.enqueued| - |p.queue|)
    && (p.enqueued != [] && p.queue == [] ==> p.taken != [] && p.taken[|p.taken| - 1] == |p.enqueued| - 1)
    && (p.queue != [] ==> p.queue[0] == p.enqueued[|p.enqueued| - 1])
    && p.sent <= p.taken && |p.taken| <= |p.sent| + 1
    && (p.running && !p.sending ==> p.sent == p.taken)
    && (p.sending ==> p.running && |p.taken| == |p.sent| + 1)
    && (!p.started ==> p == Fresh())
  }

  lemma NextKeepsInv(p: Pump, event: Event)
    requires Inv(p)
    ensures Inv(Next(p, event))
  {
    if event == Take {
      TakeKeepsInv(p);
    } else if event.Done? {
      SentKeepsInv(p, event.ok);
    }
  }

  lemma TakeKeepsInv(p: Pump)
    requires Inv(p)
    ensures Inv(Next(p, Take))
  {
  }

  lemma SentKeepsInv(p: Pump, ok: bool)
    requires Inv(p)
    ensures Inv(Next(p, Done(ok)))
  {
  }

  lemma FreshIsInv()
    ensures Inv(Fresh())
  {
  }

  lemma NextOffers(p: Pump, event: Event)
    ensures Next(p, event).started <==> p.started || event == Start
    ensures Next(p, event).enqueued == if event.Queue? && p.started then p.enqueued + [event.frame] else p.enqueued
  {
  }

  lemma {:induction false} RunKeepsInv(events: seq<Event>)
    ensures Inv(Run(events)) && Run(events).enqueued == Offered(events)
    ensures Run(events).started <==> Start in events
  {
    hide Inv, Next;
    if events == [] {
      FreshIsInv();
    } else {
      var before, last := events[..|events| - 1], events[|events| - 1];
      RunKeepsInv(before);
      NextKeepsInv(Run(before), last);
      NextOffers(Run(before), last);
      assert events == before + [last];
    }
  }

  /** After any events: at most one frame waits and it is the newest; every frame offered has been
      taken, is waiting, or is counted as dropped; and the frames sent are some of those offered, in
      the order they were offered, none twice. */
  lemma PumpIsSafe(events: seq<Event>)
    ensures var p := Run(events);
      var offered := Offered(events);
      && |p.queue| <= 1
      && (p.queue != [] ==> offered != [] && p.queue[0] == offered[|offered| - 1])
      && |offered| == |p.taken| + |p.queue| + p.dropped
      && Increasing(p.taken, |offered|) && Increasing(p.sent, |offered|) && p.sent <= p.taken
  {
    RunKeepsInv(events);
  }

  /** The newest position is never the one that is lost: whenever the pump is idle with an empty
      queue, the last frame it sent is the last one offered. */
  lemma NewestArrives(events: seq<Event>)
    requires var p := Run(events); p.running && !p.sending && p.queue == []
    requires Offered(events) != []
    ensures var p := Run(events);
      && p.sent != [] && p.sent[|p.sent| - 1] == |Offered(events)| - 1
      && Delivered(p)[|p.sent| - 1] == Offered(events)[|Offered(events)| - 1]
  {
    RunKeepsInv(events);
  }

  /** A started pump that is offered a frame has the newest waiting; and one that is free takes what waits, and when
      the send returns has sent it and nothing waits: the frame is delivered. */
  lemma PumpDelivers(events: seq<Event>, frame: Frame)
    requires var p := Run(events); p.running && !p.sending && p.started
    ensures var all := events + [Queue(frame), Take, Done(true)];
      var p := Run(all);
      && p.running && !p.sending && p.queue == [] && p.sent == p.taken && p.sent != []
      && p.sent[|p.sent| - 1] == |p.enqueued| - 1 && p.enqueued == Offered(events) + [frame]
      && Delivered(p)[|p.sent| - 1] == frame
  {
    hide Offered, Inv, Next, Delivered;
    RunKeepsInv(events);
    RunOneMore(events, Queue(frame));
    RunOneMore(events + [Queue(frame)], Take);
    RunOneMore(events + [Queue(frame)] + [Take], Done(true));
    assert events + [Queue(frame), Take, Done(true)] == events + [Queue(frame)] + [Take] + [Done(true)];
    TurnDelivers(Run(events), frame);
  }

  lemma TurnDelivers(p: Pump, frame: Frame)
    requires Inv(p) && p.running && !p.sending && p.started
    ensures var q := Next(Next(Next(p, Queue(frame)), Take), Done(true));
      && q.running && !q.sending && q.queue == [] && q.sent == q.taken && q.sent != []
      && q.sent[|q.sent| - 1] == |q.enqueued| - 1 && q.enqueued == p.enqueued + [frame]
      && Delivered(q)[|q.sent| - 1] == frame
  {
  }

  lemma RunOneMore(events: seq<Event>, event: Event)
    ensures Run(events + [event]) == Next(Run(events), event)
  {
    assert (events + [event])[..|events + [event]| - 1] == events;
  }

  /** A pump that has been stopped, or has failed to send, never takes or sends again. */
  lemma {:induction false} StopsForGood(events: seq<Event>, more: seq<Event>)
    requires Run(events).started && !Run(events).running
    ensures var p, q := Run(events), Run(events + more);
      q.started && !q.running && q.taken == p.taken && q.sent == p.sent
  {
    if more == [] {
      assert events + more == events;
    } else {
      var before, last := more[..|more| - 1], more[|more| - 1];
      StopsForGood(events, before);
      RunOneMore(events + before, last);
      assert events + before + [last] == events + more;
      hide Run;
    }
  }

  /** A stop and a send that fails stop the pump. */
  lemma Stops(events: seq<Event>, last: Event)
    requires Run(events).started && (last == Stop || (Run(events).sending && last == Done(false)))
    ensures !Run(events + [last]).running && !Run(events + [last]).sending
  {
    hide Next;
    RunKeepsInv(events);
    RunOneMore(events, last);
    StopsNow(Run(events), last);
  }

  lemma StopsNow(p: Pump, last: Event)
    requires Inv(p) && (last == Stop || (p.sending && last == Done(false)))
    ensures !Next(p, last).running && !Next(p, last).sending
  {
  }

  /** A pump held up in one send takes nothing more, however many frames arrive, and still holds the
      newest when it is let go. */
  lemma {:induction false} HeldUp(p: Pump, frames: seq<Frame>)
    requires Inv(p) && p.sending && frames != []
    ensures var q := NextAll(p, frames);
      && Inv(q) && q.sending && q.taken == p.taken && q.sent == p.sent
      && q.queue == [frames[|frames| - 1]]
      && q.dropped == p.dropped + |p.queue| + |frames| - 1
  {
    var before, last := frames[..|frames| - 1], frames[|frames| - 1];
    if before == [] {
      assert NextAll(p, before) == p;
    } else {
      HeldUp(p, before);
    }
    NextKeepsInv(NextAll(p, before), Queue(last));
  }

  function NextAll(p: Pump, frames: seq<Frame>): Pump {
    if frames == [] then p else Next(NextAll(p, frames[..|frames| - 1]), Queue(frames[|frames| - 1]))
  }

  // ---- The consumer's own fields -----------------------------------------------------------------

  class LocationBroadcast {
    var started: bool
    var running: bool
    var sending: bool
    var queue: seq<Frame>
    var dropped: nat
    ghost var enqueued: seq<Frame>
    ghost var taken: seq<nat>
    ghost var sent: seq<nat>

    ghost function State(): Pump
      reads this
    {
      Pump(started, running, sending, queue, dropped, enqueued, taken, sent)
    }

    constructor ()
      ensures State() == Fresh()
    {
      started, running, sending, queue, dropped := false, false, false, [], 0;
      enqueued, taken, sent := [], [], [];
    }

    method StartLocationPump()
      requires Inv(State())
      modifies this
      ensures State() == Next(old(State()), Start) && Inv(State())
      ensures old(started) ==> State() == old(State())
      ensures !old(started) ==> started && running && !sending && queue == [] && dropped == 0
    {
      NextKeepsInv(State(), Start);
      if !started {
        started, running := true, true;
        queue, dropped := [], 0;
      }
    }

    /** Never waits: a full queue gives up its frame for the new one. */
    method QueueLocationFrame(payload: Frame)
      requires Inv(State())
      modifies this
      ensures State() == Next(old(State()), Queue(payload)) && Inv(State())
      ensures !started ==> State() == old(State())
      ensures started ==> queue == [payload] && enqueued == old(enqueued) + [payload] && taken == old(taken)
      ensures started ==> dropped == old(dropped) + |old(queue)| && running == old(running) && sending == old(sending)
    {
      NextKeepsInv(State(), Queue(payload));
      if !started {
        return;
      }
      if |queue| >= 1 {
        queue := queue[1..];
        dropped := dropped + 1;
      }
      // There is room now, and no other task runs before the put.
      queue := queue + [payload];
      enqueued := enqueued + [payload];
    }

    /** The pump task wakes up with the oldest (and only) frame. */
    method PumpTake() returns (payload: Frame)
      requires Inv(State()) && running && !sending && queue != []
      modifies this
      ensures State() == Next(old(State()), Take) && Inv(State())
      ensures payload == old(queue)[0] == old(enqueued)[|old(enqueued)| - 1]
      ensures running && sending && queue == [] && dropped == old(dropped)
    {
      NextKeepsInv(State(), Take);
      payload := queue[0];
      queue := queue[1..];
      sending := true;
      taken := taken + [|enqueued| - 1];
    }

    /** The send comes back, or fails and ends the pump. */
    method PumpSent(ok: bool)
      requires Inv(State()) && sending
      modifies this
      ensures State() == Next(old(State()), Done(ok)) && Inv(State())
      ensures running == ok && !sending && queue == old(queue) && dropped == old(dropped) && taken == old(taken)
      ensures sent == if ok then old(taken) else old(sent)
    {
      NextKeepsInv(State(), Done(ok));
      sending := false;
      if ok {
        sent := sent + [taken[|taken| - 1]];
      } else {
        running := false;
      }
    }

    /** Idempotent: a second stop changes nothing. */
    method StopLocationPump()
      requires Inv(State())
      modifies this
      ensures State() == Next(old(State()), Stop) && Inv(State())
      ensures !running && !sending && State() == old(State()).(running := running, sending := sending)
      ensures !old(running) && !old(sending) ==> State() == old(State())
    {
      NextKeepsInv(State(), Stop);
      if running {
        running := false;
      }
      sending := false;
    }
  }
}
