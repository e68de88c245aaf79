/**
 When a fan-out can block the event loop. A worker that meets a full buffer calls Unregister, whose
 channel only Run reads, and Run is waiting for the workers. The fan-out returns by itself exactly
 when the full buffers and the unregisters already queued fit the channel together.
 */
module HubBlocking {
  import opened Sets
  import opened HubModel
  import opened HubSafety

  function FullWaiting(h: Hub): set<ClientId>
    requires h.phase.Fanout?
  {
    set c | c in h.phase.waiting && Full(h, c)
  }

  /** The places in the unregister channel that are taken or will be asked for. */
  function Pressure(h: Hub): nat
    requires h.phase.Fanout?
  {
    |h.unregister| + |h.phase.evicting| + |FullWaiting(h)|
  }

  /** A fan-out under way: its clients are open, and there is at least one worker. */
  ghost predicate Serving(h: Hub) {
    h.phase.Fanout? && h.phase.workers > 0 && |h.unregister| <= UNREGISTER_CAP && h.phase.waiting !! h.phase.evicting
    && forall c :: c in h.phase.waiting ==> c in h.send && !h.send[c].closed
  }

  lemma StartingPressure(h: Hub)
    requires Inv(h) && Enabled(h, TakeBroadcast) && h.clients != {} && h.poolSize > 0
    ensures var r := Next(h, TakeBroadcast);
            Serving(r) && Pressure(r) == |h.unregister| + |set c | c in h.clients && Full(h, c)|
  {
    var r := Next(h, TakeBroadcast);
    assert |h.clients| > 0;
    forall c | c in h.clients ensures Fresh(h, c) { assert c in OpenClients(h); }
    assert FullWaiting(r) == set c | c in h.clients && Full(h, c);
  }

  predicate WorkerStep(s: Step) {
    s.Deliver? || s.Evict? || s.FanoutDone?
  }

  /** What the workers still have to do. */
  function Work(h: Hub): nat
    requires h.phase.Fanout?
  {
    2 * |h.phase.waiting| + |h.phase.evicting|
  }

  lemma Without(s: set<ClientId>, c: ClientId)
    ensures c in s ==> |s - {c}| == |s| - 1
    ensures c !in s ==> s - {c} == s && |s + {c}| == |s| + 1
  {
  }

  lemma NobodyWaits(h: Hub)
    requires h.phase.Fanout?
    ensures h.phase.waiting == {} ==> Pressure(h) == |h.unregister| + |h.phase.evicting|
  {
    if h.phase.waiting == {} {
      assert FullWaiting(h) == {};
    }
  }

  lemma DeliverSets(h: Hub, c: ClientId)
    requires Serving(h) && Enabled(h, Deliver(c))
    ensures var r := Next(h, Deliver(c));
            && Serving(r) && r.unregister == h.unregister && r.phase.waiting == h.phase.waiting - {c}
            && FullWaiting(r) == FullWaiting(h) - {c}
            && r.phase.evicting == if Full(h, c) then h.phase.evicting + {c} else h.phase.evicting
  {
    DeliverSends(h, c);
    hide Next;
    hide Enabled;
  }

  lemma DeliverSends(h: Hub, c: ClientId)
    requires Enabled(h, Deliver(c)) && c in h.send && !h.send[c].closed
    ensures var p, r := h.phase, Next(h, Deliver(c));
            && r.unregister == h.unregister && r.send.Keys == h.send.Keys && !r.send[c].closed
            && (forall d :: d in h.send && d != c ==> r.send[d] == h.send[d])
            && r.phase == Fanout(p.message, p.waiting - {c},
                                 if Full(h, c) then p.evicting + {c} else p.evicting, p.workers)
  {
    var p, r := h.phase, Next(h, Deliver(c));
    var served := p.(waiting := p.waiting - {c});
    hide Enabled;
    if Full(h, c) {
      assert r == h.(phase := served.(evicting := p.evicting + {c}), missed := h.missed + {c});
    } else {
      assert r == h.(phase := served, send := h.send[c := Chan(h.send[c].buffer + [p.message], false)]);
    }
    hide Next;
  }

  /** A delivery keeps the pressure: a full client moves from the waiting to the evicting ones. */
  lemma DeliverPressure(h: Hub, c: ClientId)
    requires Serving(h) && Enabled(h, Deliver(c))
    ensures Serving(Next(h, Deliver(c))) && Pressure(Next(h, Deliver(c))) == Pressure(h)
              && Work(Next(h, Deliver(c))) < Work(h)
  {
    DeliverSets(h, c);
    Without(h.phase.waiting, c);
    Without(h.phase.evicting, c);
    Without(FullWaiting(h), c);
  }

  lemma EvictPressure(h: Hub, c: ClientId, queued: bool)
    requires Serving(h) && Enabled(h, Evict(c, queued))
    ensures var r := Next(h, Evict(c, queued));
            Serving(r) && Work(r) < Work(h) && Pressure(r) == if queued then Pressure(h) else Pressure(h) - 1
  {
    var r := Next(h, Evict(c, queued));
    Without(h.phase.evicting, c);
    assert FullWaiting(r) == FullWaiting(h);
  }

  /** Everyone else can only lower the pressure, except a caller whose unregister finds room. */
  lemma OtherPressure(h: Hub, s: Step)
    requires Serving(h) && Enabled(h, s) && !WorkerStep(s)
    ensures var r := Next(h, s);
            Serving(r) && r.phase == h.phase
            && (!(s.Unregister? && s.queued) ==> Pressure(r) <= Pressure(h))
            && (!s.Receive? ==> Pressure(r) >= Pressure(h))
  {
    var r := Next(h, s);
    if s.Receive? {
      SubsetSize(FullWaiting(r), FullWaiting(h));
    } else {
      assert FullWaiting(r) == FullWaiting(h);
    }
  }

  /** Below the limit some worker can always move. */
  lemma LowPressureNeverStuck(h: Hub) returns (s: Step)
    requires Serving(h) && Pressure(h) <= UNREGISTER_CAP
    ensures WorkerStep(s) && Enabled(h, s) && (s.Evict? ==> s.queued)
  {
    if c :| c in h.phase.evicting {
      Without(h.phase.evicting, c);
      s := Evict(c, true);
    } else if c :| c in h.phase.waiting {
      assert h.phase.evicting == {};
      s := Deliver(c);
    } else {
      assert h.phase.waiting == {} && h.phase.evicting == {};
      s := FanoutDone;
    }
  }

  /** A step put before a run. */
  lemma RunFrom(h: Hub, s: Step, states: seq<Hub>, steps: seq<Step>)
    requires Enabled(h, s) && Run(states, steps) && states[0] == Next(h, s)
    ensures Run([h] + states, [s] + steps) && ([h] + states)[|steps| + 1] == states[|steps|]
  {
    hide Next;
    hide Enabled;
  }

  /** At or below the limit the workers finish by themselves, without cancellation and without
      anyone reading a channel. */
  lemma {:induction false} FanoutReturns(h: Hub) returns (states: seq<Hub>, steps: seq<Step>)
    requires Serving(h) && Pressure(h) <= UNREGISTER_CAP
    ensures Run(states, steps) && states[0] == h && states[|steps|].phase.Idle?
    ensures forall i :: 0 <= i < |steps| ==> WorkerStep(steps[i]) && (steps[i].Evict? ==> steps[i].queued)
    decreases Work(h)
  {
    var s := LowPressureNeverStuck(h);
    var r := Next(h, s);
    if s.FanoutDone? {
      states, steps := [h, r], [s];
    } else {
      if s.Deliver? { DeliverPressure(h, s.c); } else { EvictPressure(h, s.c, s.queued); }
      hide Pressure;
      hide Serving;
      states, steps := FanoutReturns(r);
      RunFrom(h, s, states, steps);
      hide Next;
      hide Enabled;
      states, steps := [h] + states, [s] + steps;
    }
  }

  lemma OverPressureStays(h: Hub, s: Step)
    requires Serving(h) && !h.cancelled && Pressure(h) > UNREGISTER_CAP
    requires Enabled(h, s) && !s.Receive? && !s.Cancel?
    ensures var r := Next(h, s); Serving(r) && !r.cancelled && Pressure(r) > UNREGISTER_CAP
  {
    NobodyWaits(h);
    match s
    case Deliver(c) => DeliverPressure(h, c);
    case Evict(c, queued) => EvictPressure(h, c, queued);
    case FanoutDone => assert false;
    case _ => OtherPressure(h, s);
  }

  /** Above the limit no schedule of workers and callers brings the fan-out back, as long as no
      write pump reads and nobody cancels. */
  lemma {:induction false} OverPressureNeverReturns(states: seq<Hub>, steps: seq<Step>, n: nat)
    requires Run(states, steps) && n <= |steps| && Serving(states[0]) && !states[0].cancelled
    requires Pressure(states[0]) > UNREGISTER_CAP
    requires forall i :: 0 <= i < |steps| ==> !steps[i].Receive? && !steps[i].Cancel?
    ensures Serving(states[n]) && !states[n].cancelled && Pressure(states[n]) > UNREGISTER_CAP
  {
    hide Pressure;
    if n > 0 {
      OverPressureNeverReturns(states, steps, n - 1);
      assert states[n - 1 + 1] == Next(states[n - 1], steps[n - 1]);
      OverPressureStays(states[n - 1], steps[n - 1]);
    }
  }

  /** The fan-out can return by the work of its workers alone if and only if the full buffers and
      the queued unregisters are at most 100 together. */
  lemma FanoutReturnsIff(h: Hub)
    requires Serving(h) && !h.cancelled
    ensures Pressure(h) <= 100 <==>
            exists states: seq<Hub>, steps: seq<Step> :: Run(states, steps) && states[0] == h
                && states[|steps|].phase.Idle?
              && forall i :: 0 <= i < |steps| ==> WorkerStep(steps[i])
  {
    if Pressure(h) <= UNREGISTER_CAP {
      var states, steps := FanoutReturns(h);
    } else {
      forall states: seq<Hub>, steps: seq<Step> | Run(states, steps) && states[0] == h
          && (forall i :: 0 <= i < |steps| ==> WorkerStep(steps[i]))
        ensures !states[|steps|].phase.Idle?
      {
        OverPressureNeverReturns(states, steps, |steps|);
      }
    }
  }

  function WorkerSteps(steps: seq<Step>): nat {
    if steps == [] then 0
    else WorkerSteps(steps[..|steps| - 1]) + if WorkerStep(steps[|steps| - 1]) then 1 else 0
  }

  /** No caller finds room for an unregister: what callers, write pumps and a cancellation do apart from
      that never raises the pressure. */
  predicate NobodyUnregisters(steps: seq<Step>) {
    forall i :: 0 <= i < |steps| ==> !(steps[i].Unregister? && steps[i].queued)
  }

  /** Whatever the workers and all others do, and in whatever order, a fan-out within the limit stays
      within it until it is over, and each step of a worker leaves less to do. */
  lemma {:induction false} WorkersFinish(states: seq<Hub>, steps: seq<Step>, n: nat)
    requires Run(states, steps) && n <= |steps| && Serving(states[0]) && Pressure(states[0]) <= UNREGISTER_CAP
    requires NobodyUnregisters(steps) && forall i :: 0 <= i < n ==> !steps[i].FanoutDone?
    ensures Serving(states[n]) && Pressure(states[n]) <= UNREGISTER_CAP
    ensures WorkerSteps(steps[..n]) + Work(states[n]) <= Work(states[0])
  {
    if n > 0 {
      WorkersFinish(states, steps, n - 1);
      var h, s := states[n - 1], steps[n - 1];
      assert Enabled(h, s) && states[n - 1 + 1] == Next(h, s) && steps[..n][..n - 1] == steps[..n - 1];
      StaysWithin(h, s);
      hide Pressure;
      hide Work;
    }
  }

  lemma StaysWithin(h: Hub, s: Step)
    requires Serving(h) && Enabled(h, s) && !s.FanoutDone? && !(s.Unregister? && s.queued)
    ensures var r := Next(h, s);
            && Serving(r) && Pressure(r) <= Pressure(h)
            && Work(r) + (if WorkerStep(s) then 1 else 0) <= Work(h)
  {
    hide Next;
    match s
    case Deliver(c) => DeliverPressure(h, c);
    case Evict(c, queued) => EvictPressure(h, c, queued);
    case _ => OtherPressure(h, s);
  }

  /** So in every schedule, with any steps of the others in between, the workers have at most `Work`
      steps to make; until the fan-out has returned one of them can be made. */
  lemma EveryScheduleReturns(states: seq<Hub>, steps: seq<Step>)
    requires Run(states, steps) && Serving(states[0]) && Pressure(states[0]) <= UNREGISTER_CAP
    requires NobodyUnregisters(steps)
    ensures (exists i :: 0 <= i < |steps| && steps[i].FanoutDone?)
            || (WorkerSteps(steps) <= Work(states[0]) && exists s :: WorkerStep(s) && Enabled(states[|steps|], s))
  {
    if forall i :: 0 <= i < |steps| ==> !steps[i].FanoutDone? {
      WorkersFinish(states, steps, |steps|);
      assert steps[..|steps|] == steps;
      var s := LowPressureNeverStuck(states[|steps|]);
    }
  }

  // ---- the dead end -------------------------------------------------------------------------------

  /** Every worker is inside Unregister, or none is needed, and the channel is full. */
  predicate Blocked(h: Hub) {
    h.phase.Fanout? && h.phase.evicting != {} && |h.unregister| == UNREGISTER_CAP
    && (h.phase.waiting == {} || |h.phase.evicting| >= h.phase.workers)
  }

  /** From there nothing but cancellation moves the fan-out: not even reading the client channels. */
  lemma {:induction false} BlockedUntilCancelled(states: seq<Hub>, steps: seq<Step>, n: nat)
    requires Run(states, steps) && n <= |steps| && Blocked(states[0]) && !states[0].cancelled
    requires forall i :: 0 <= i < |steps| ==> !steps[i].Cancel?
    ensures Blocked(states[n]) && !states[n].cancelled && states[n].phase == states[0].phase
  {
    if n > 0 {
      BlockedUntilCancelled(states, steps, n - 1);
      assert states[n - 1 + 1] == Next(states[n - 1], steps[n - 1]);
    }
  }

  /** Above the limit, and short of the dead end, some worker goes on and the pressure stays. */
  lemma OverPressureGoesOn(h: Hub) returns (s: Step)
    requires Serving(h) && Pressure(h) > UNREGISTER_CAP && !Blocked(h)
    ensures WorkerStep(s) && Enabled(h, s)
    ensures var r := Next(h, s);
            Serving(r) && Work(r) < Work(h) && Pressure(r) == Pressure(h) && r.cancelled == h.cancelled
  {
    if |h.unregister| < UNREGISTER_CAP && h.phase.evicting != {} {
      var c :| c in h.phase.evicting;
      s := Evict(c, true);
      EvictPressure(h, c, true);
    } else {
      NobodyWaits(h);
      var c :| c in h.phase.waiting;
      s := Deliver(c);
      DeliverPressure(h, c);
    }
  }

  /** Above the limit the workers do run into the dead end. */
  lemma {:induction false} OverPressureBlocks(h: Hub) returns (states: seq<Hub>, steps: seq<Step>)
    requires Serving(h) && !h.cancelled && Pressure(h) > UNREGISTER_CAP
    ensures Run(states, steps) && states[0] == h && Blocked(states[|steps|])
    ensures forall i :: 0 <= i < |steps| ==> WorkerStep(steps[i])
    decreases Work(h)
  {
    hide Pressure;
    hide Work;
    if Blocked(h) {
      states, steps := [h], [];
    } else {
      var s := OverPressureGoesOn(h);
      states, steps := OverPressureBlocks(Next(h, s));
      RunFrom(h, s, states, steps);
      hide Next;
      hide Enabled;
      states, steps := [h] + states, [s] + steps;
    }
  }

  /** Cancellation frees every worker: the fan-out can always be finished then. */
  lemma {:induction false} CancelledFanoutReturns(h: Hub) returns (states: seq<Hub>, steps: seq<Step>)
    requires Serving(h) && h.cancelled
    ensures Run(states, steps) && states[0] == h && states[|steps|].phase.Idle?
    decreases Work(h)
  {
    var s: Step;
    if c :| c in h.phase.evicting {
      s := Evict(c, false);
      EvictPressure(h, c, false);
    } else if c :| c in h.phase.waiting {
      assert h.phase.evicting == {};
      s := Deliver(c);
      DeliverPressure(h, c);
    } else {
      s := FanoutDone;
      assert h.phase.waiting == {} && h.phase.evicting == {};
      states, steps := [h, Next(h, s)], [s];
      return;
    }
    states, steps := CancelledFanoutReturns(Next(h, s));
    RunFrom(h, s, states, steps);
    states, steps := [h] + states, [s] + steps;
  }
}
