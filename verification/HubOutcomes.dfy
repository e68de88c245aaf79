/**
 When each step of the hub can be taken and what it does to one client's channel.
 */
module HubOutcomes {
  import opened HubModel

  /** Callers get into the hub while there is room, or give up once it is cancelled; Broadcast may always
      give up. A request that got in is the last of its queue, and a new client's channel is open and empty. */
  lemma CallersAre(h: Hub, c: ClientId, m: Message)
    ensures Enabled(h, Register(c, false)) <==> h.cancelled
    ensures Enabled(h, Unregister(c, false)) <==> h.cancelled
    ensures Enabled(h, Broadcast(m, false)) && Next(h, Broadcast(m, false)) == h
    ensures h.cancelled ==> Next(h, Unregister(c, false)) == h
    ensures |h.register| < 100 ==>
              var r := Next(h, Register(c, true));
              && r.register == h.register + [c] && c in r.send && c in r.received
              && (c !in h.send ==> r.send[c].buffer == [] && !r.send[c].closed)
              && (forall d :: d in h.send ==> d in r.send && r.send[d] == h.send[d])
              && r == h.(register := r.register, send := r.send, received := r.received,
                         registered := h.registered + {c})
    ensures |h.unregister| < 100 ==> Next(h, Unregister(c, true)) == h.(unregister := h.unregister + [c])
    ensures |h.broadcast| < 2048 ==> Next(h, Broadcast(m, true)) == h.(broadcast := h.broadcast + [m])
    ensures Enabled(h, Cancel) && Next(h, Cancel) == h.(cancelled := true)
  {
    hide CloseClient;
  }

  /** A pump takes the oldest message of its channel, also of a closed one. */
  lemma ReceiveIs(h: Hub, c: ClientId)
    ensures Enabled(h, Receive(c)) <==> c in h.send && |h.send[c].buffer| > 0
    ensures Enabled(h, Receive(c)) ==>
              var r, ch := Next(h, Receive(c)), h.send[c];
              && r == h.(send := r.send, received := r.received) && r.send.Keys == h.send.Keys
              && (forall d :: d in h.send && d != c ==> r.send[d] == h.send[d])
              && r.send[c].closed == ch.closed && [ch.buffer[0]] + r.send[c].buffer == ch.buffer
              && c in r.received && r.received[c] == (if c in h.received then h.received[c] else []) + [ch.buffer[0]]
  {
    hide CloseClient;
  }

  /** The close of Run: it takes a waiting message out, and closes an open channel, once. A closed channel
      that still holds a message looks open to it, and closing that one panics. */
  ghost predicate ClosesChannel(h: Hub, r: Hub, c: ClientId) {
    var ch := if c in h.send then h.send[c] else Chan([], false);
    && c in r.send && r.send[c].closed && (forall d :: d in h.send && d != c ==> d in r.send && r.send[d] == h.send[d])
    && (ch.buffer == [] ==> r.send[c].buffer == [])
    && (ch.buffer != [] ==> [ch.buffer[0]] + r.send[c].buffer == ch.buffer)
    && (r.phase.Panicked? <==> ch.closed && ch.buffer != [])
    && r.closes == if ch.closed then h.closes else h.closes[c := (if c in h.closes then h.closes[c] else 0) + 1]
  }

  /** Run takes one request at a time and only between two fan-outs. */
  lemma RunTakes(h: Hub)
    ensures Enabled(h, TakeRegister) <==> h.phase == Idle && |h.register| > 0
    ensures Enabled(h, TakeUnregister) <==> h.phase == Idle && |h.unregister| > 0
    ensures Enabled(h, TakeBroadcast) <==> h.phase == Idle && |h.broadcast| > 0
    ensures Enabled(h, SeeDone) <==> h.phase == Idle && h.cancelled
    ensures Enabled(h, TakeRegister) ==>
              Next(h, TakeRegister) == h.(register := h.register[1..], clients := h.clients + {h.register[0]},
                                          since := h.since[h.register[0] := |h.log|])
    ensures Enabled(h, SeeDone) ==> Next(h, SeeDone) == h.(phase := Closing(h.clients))
  {
    hide CloseClient;
  }

  lemma UnregisterIs(h: Hub)
    requires Enabled(h, TakeUnregister)
    ensures var r, c := Next(h, TakeUnregister), h.unregister[0];
            && r == h.(unregister := h.unregister[1..], clients := h.clients - {c}, send := r.send, closes := r.closes,
                       phase := r.phase)
            && (if c in h.clients then ClosesChannel(h, r, c) && (r.phase == Idle || r.phase == Panicked)
                else r.send == h.send && r.closes == h.closes && r.phase == Idle)
  {
  }

  /** A broadcast goes to all clients known at that time, with a worker each up to the size of the pool. */
  lemma BroadcastIs(h: Hub)
    requires Enabled(h, TakeBroadcast)
    ensures Next(h, TakeBroadcast)
            == h.(broadcast := h.broadcast[1..], log := h.log + [h.broadcast[0]],
                  phase := if h.clients == {} then Idle
                  else Fanout(h.broadcast[0], h.clients, {},
                              if h.poolSize <= |h.clients| then h.poolSize else |h.clients|))
  {
    hide CloseClient;
  }

  /** A free worker serves a waiting client: into the channel if there is room, and if not it goes on to
      unregister the client. Sending into a closed channel would count as a misfire. */
  lemma DeliverIs(h: Hub, c: ClientId)
    ensures Enabled(h, Deliver(c)) <==>
              h.phase.Fanout? && c in h.phase.waiting && |h.phase.evicting| < h.phase.workers
    ensures Enabled(h, Deliver(c)) ==>
              var p, r := h.phase, Next(h, Deliver(c));
              var ch := if c in h.send then h.send[c] else Chan([], false);
              var served := Fanout(p.message, p.waiting - {c}, p.evicting, p.workers);
              if ch.closed then r == h.(phase := served, misfires := h.misfires + 1)
              else if |ch.buffer| < 512
              then r == h.(phase := served, send := h.send[c := Chan(ch.buffer + [p.message], false)])
              else r == h.(phase := Fanout(p.message, p.waiting - {c}, p.evicting + {c}, p.workers),
                           missed := h.missed + {c})
  {
    hide CloseClient;
  }

  /** A worker inside Unregister waits for room or for cancellation, and the fan-out for all workers. */
  lemma FanoutEnds(h: Hub, c: ClientId)
    ensures Enabled(h, Evict(c, true)) <==> h.phase.Fanout? && c in h.phase.evicting && |h.unregister| < 100
    ensures Enabled(h, Evict(c, false)) <==> h.phase.Fanout? && c in h.phase.evicting && h.cancelled
    ensures Enabled(h, FanoutDone) <==> h.phase.Fanout? && h.phase.waiting == {} && h.phase.evicting == {}
    ensures Enabled(h, FanoutDone) ==> Next(h, FanoutDone) == h.(phase := Idle)
    ensures Enabled(h, Evict(c, true)) ==>
              var p, r := h.phase, Next(h, Evict(c, true));
              r == h.(phase := Fanout(p.message, p.waiting, p.evicting - {c}, p.workers),
                      unregister := h.unregister + [c])
    ensures Enabled(h, Evict(c, false)) ==>
              var p, r := h.phase, Next(h, Evict(c, false));
              r == h.(phase := Fanout(p.message, p.waiting, p.evicting - {c}, p.workers))
  {
    hide CloseClient;
  }

  /** The shutdown closes each client that is left, and stops when none is. */
  lemma ShutdownIs(h: Hub, c: ClientId)
    ensures Enabled(h, CloseOne(c)) <==> h.phase.Closing? && c in h.phase.left
    ensures Enabled(h, ClosedAll) <==> h.phase == Closing({})
    ensures Enabled(h, ClosedAll) ==> Next(h, ClosedAll) == h.(clients := {}, phase := Stopped)
    ensures Enabled(h, CloseOne(c)) ==>
              var r := Next(h, CloseOne(c));
              && r == h.(send := r.send, closes := r.closes, phase := r.phase) && ClosesChannel(h, r, c)
              && (r.phase == Panicked || r.phase == Closing(h.phase.left - {c}))
  {
  }
}
