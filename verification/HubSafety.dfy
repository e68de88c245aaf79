/**
 Safety of the hub over every interleaving: if each client registers once, no Send channel is closed
 twice, nothing is sent on a closed channel, the loop never panics, and each client receives an
 in-order subsequence of the broadcasts.
 */
module HubSafety {
  import opened HubModel

  // ---- subsequences -------------------------------------------------------------------------------

  /** `f` says where in `b` each element of `a` stands. */
  ghost predicate Embeds(f: seq<nat>, a: seq<Message>, b: seq<Message>) {
    && |f| == |a|
    && (forall i :: 0 <= i < |f| ==> f[i] < |b| && b[f[i]] == a[i])
    && forall i, j :: 0 <= i < j < |f| ==> f[i] < f[j]
  }

  ghost predicate Subsequence(a: seq<Message>, b: seq<Message>) {
    exists f :: Embeds(f, a, b)
  }

  lemma NothingIsSubsequence(b: seq<Message>)
    ensures Subsequence([], b)
  {
    assert Embeds([], [], b);
  }

  lemma LongerLog(a: seq<Message>, b: seq<Message>, m: Message)
    requires Subsequence(a, b)
    ensures Subsequence(a, b + [m])
  {
    var f: seq<nat> :| Embeds(f, a, b);
    assert Embeds(f, a, b + [m]);
  }

  lemma BothGrow(a: seq<Message>, b: seq<Message>, m: Message)
    requires Subsequence(a, b)
    ensures Subsequence(a + [m], b + [m])
  {
    var f: seq<nat> :| Embeds(f, a, b);
    var last: nat := |b|;
    assert Embeds(f + [last], a + [m], b + [m]);
  }

  lemma Dropped(a: seq<Message>, k: nat, b: seq<Message>)
    requires Subsequence(a, b) && k < |a|
    ensures Subsequence(a[..k] + a[k + 1..], b)
  {
    var f: seq<nat> :| Embeds(f, a, b);
    assert Embeds(f[..k] + f[k + 1..], a[..k] + a[k + 1..], b);
  }

  lemma FrontIsSubsequence(a: seq<Message>, rest: seq<Message>, b: seq<Message>, log: seq<Message>)
    requires Subsequence(a + rest, b) && b <= log
    ensures Subsequence(a, log)
  {
    var f: seq<nat> :| Embeds(f, a + rest, b);
    assert forall i :: 0 <= i < |a| ==> (a + rest)[i] == a[i];
    assert Embeds(f[..|a|], a, log);
  }

  // ---- the invariant ------------------------------------------------------------------------------

  /** Everything a client has been given: what its pump has read and what waits in the channel. */
  function Given(h: Hub, c: ClientId): seq<Message> {
    (if c in h.received then h.received[c] else []) + ChanOf(h, c).buffer
  }

  /** The broadcasts a client can have been given: all that Run took, short of the one being fanned
      out while the client still waits for it. */
  function Offered(h: Hub, c: ClientId): seq<Message> {
    if h.phase.Fanout? && c in h.phase.waiting && h.log != [] then h.log[..|h.log| - 1] else h.log
  }

  predicate ClosedOnce(h: Hub, c: ClientId) {
    ChanOf(h, c).closed <==> (c in h.closes && h.closes[c] == 1)
  }

  /** Open and never closed. */
  predicate Fresh(h: Hub, c: ClientId) {
    c in h.send && !h.send[c].closed && c in h.registered
  }

  predicate DistinctQueue(q: seq<ClientId>) {
    forall i, j :: 0 <= i < j < |q| ==> q[i] != q[j]
  }

  /** The clients Run still keeps open: in a shutdown those not yet closed. */
  function OpenClients(h: Hub): set<ClientId> {
    if h.phase.Closing? then h.phase.left else h.clients
  }

  ghost predicate PhaseFits(h: Hub) {
    match h.phase
    case Idle => true
    case Fanout(m, waiting, evicting, _) =>
      waiting <= h.clients && evicting <= h.clients && waiting !! evicting && h.log != [] && h.log[|h.log| - 1] == m
    case Closing(left) => left <= h.clients
    case Stopped => h.clients == {}
    case Panicked => false
  }

  /** The three queues fit their channels. */
  predicate QueuesFit(h: Hub) {
    |h.register| <= REGISTER_CAP && |h.unregister| <= UNREGISTER_CAP && |h.broadcast| <= BROADCAST_CAP
  }

  ghost predicate Inv(h: Hub) {
    && PhaseFits(h) && QueuesFit(h) && h.misfires == 0
    && (forall c :: c in OpenClients(h) ==> Fresh(h, c))
    && (forall c :: c in h.closes ==> h.closes[c] <= 1)
    && (forall c :: ClosedOnce(h, c))
    && DistinctQueue(h.register)
    && (forall c :: c in h.register ==> Fresh(h, c) && c !in h.clients)
    && h.clients <= h.registered && h.send.Keys <= h.registered
    && (forall c :: Subsequence(Given(h, c), Offered(h, c)))
  }

  lemma NewHubInv(poolSize: nat)
    ensures Inv(NewHub(poolSize))
  {
    forall c ensures Subsequence(Given(NewHub(poolSize), c), []) {
      assert Given(NewHub(poolSize), c) == [];
      NothingIsSubsequence([]);
    }
  }

  // ---- subsequence part of each step --------------------------------------------------------------

  lemma SafeCloseOpens(h: Hub, c: ClientId, base: Hub)
    requires Inv(h) && Fresh(h, c) && base.send == h.send && base.received == h.received
    requires base.log == h.log && !base.phase.Fanout? && !h.phase.Fanout?
    ensures forall d :: Subsequence(Given(CloseClient(base, c), d), Offered(CloseClient(base, c), d))
  {
    hide Subsequence;
    hide ClosedOnce;
    hide DistinctQueue;
    hide PhaseFits;
    var r := CloseClient(base, c);
    forall d ensures Subsequence(Given(r, d), Offered(r, d)) {
      assert Offered(r, d) == Offered(h, d);
      if d == c && h.send[c].buffer != [] {
        var k := |Given(h, c)| - |h.send[c].buffer|;
        Dropped(Given(h, c), k, h.log);
        assert Given(r, c) == Given(h, c)[..k] + Given(h, c)[k + 1..];
      } else {
        assert Given(r, d) == Given(h, d);
      }
    }
  }

  /** Closing a client that is open touches no other channel and counts as its one close. */
  lemma CloseKeepsOthers(h: Hub, c: ClientId, base: Hub)
    requires Inv(h) && Fresh(h, c) && base.send == h.send && base.closes == h.closes && base.registered == h.registered
    ensures var r := CloseClient(base, c);
            && r == base.(send := r.send, closes := r.closes) && r.send.Keys == h.send.Keys
            && (forall d :: d in r.closes ==> r.closes[d] <= 1) && (forall d :: ClosedOnce(r, d))
            && (forall d :: d != c && Fresh(h, d) ==> Fresh(r, d))
  {
    hide Subsequence;
    hide PhaseFits;
    assert ClosedOnce(h, c);
    forall d ensures ClosedOnce(CloseClient(base, c), d) { assert ClosedOnce(h, d); }
  }

  /** `base` is the hub with one client less to keep open. */
  lemma CloseKeepsInv(h: Hub, c: ClientId, base: Hub)
    requires Inv(h) && c in OpenClients(h) && !h.phase.Fanout? && !base.phase.Fanout?
    requires base == h.(clients := base.clients, unregister := base.unregister, phase := base.phase)
    requires PhaseFits(base) && QueuesFit(base) && base.clients <= h.clients
    requires OpenClients(base) <= OpenClients(h) - {c}
    ensures Inv(CloseClient(base, c))
  {
    assert Fresh(h, c);
    SafeCloseOpens(h, c, base);
    CloseKeepsOthers(h, c, base);
    hide Subsequence;
    hide CloseClient;
    hide ClosedOnce;
    hide DistinctQueue;
    hide QueuesFit;
    hide Given;
    hide Offered;
    var r := CloseClient(base, c);
    assert OpenClients(r) == OpenClients(base) && PhaseFits(r) && QueuesFit(r) by { assert r.phase == base.phase; }
    forall d | d in OpenClients(r) || d in r.register ensures Fresh(r, d) { assert d != c && Fresh(h, d); }
  }

  lemma QueueTail(q: seq<ClientId>)
    requires q != [] && DistinctQueue(q)
    ensures DistinctQueue(q[1..]) && q[0] !in q[1..] && forall c :: c in q[1..] ==> c in q
  {
  }

  lemma QueueGrows(q: seq<ClientId>, c: ClientId)
    requires DistinctQueue(q) && c !in q
    ensures DistinctQueue(q + [c]) && forall d :: d in q + [c] <==> d in q || d == c
  {
  }

  /** Register must be the client's first; everything else may come from anyone at any time. */
  predicate RegistersOnce(h: Hub, s: Step) {
    s.Register? ==> s.c !in h.registered
  }

  lemma RegisterKeepsInv(h: Hub, c: ClientId, queued: bool)
    requires Inv(h) && Enabled(h, Register(c, queued)) && c !in h.registered
    ensures Inv(Next(h, Register(c, queued)))
  {
    var r := Next(h, Register(c, queued));
    forall d | d in OpenClients(r) ensures Fresh(r, d) { assert d in OpenClients(h); }
    assert c !in h.register;
    QueueGrows(h.register, c);
    forall d ensures Subsequence(Given(r, d), Offered(r, d)) && ClosedOnce(r, d) {
      assert Given(r, d) == Given(h, d) && Offered(r, d) == Offered(h, d);
      assert ClosedOnce(h, d);
    }
  }

  lemma ReceiveKeepsInv(h: Hub, c: ClientId)
    requires Inv(h) && Enabled(h, Receive(c))
    ensures Inv(Next(h, Receive(c)))
  {
    var r := Next(h, Receive(c));
    forall d | d in OpenClients(r) ensures Fresh(r, d) { assert d in OpenClients(h); }
    forall d ensures Subsequence(Given(r, d), Offered(r, d)) && ClosedOnce(r, d) {
      assert Given(r, d) == Given(h, d) && Offered(r, d) == Offered(h, d);
      assert ClosedOnce(h, d);
    }
  }

  lemma QueueStepKeepsInv(h: Hub, s: Step)
    requires Inv(h) && Enabled(h, s)
    requires s.Unregister? || s.Broadcast? || s.Cancel?
    ensures Inv(Next(h, s))
  {
    hide Subsequence;
    var r := Next(h, s);
    forall d | d in OpenClients(r) ensures Fresh(r, d) {
      assert d in OpenClients(h);
    }
    forall d ensures Subsequence(Given(r, d), Offered(r, d)) && ClosedOnce(r, d) {
      assert Given(r, d) == Given(h, d) && Offered(r, d) == Offered(h, d);
      assert ClosedOnce(h, d);
    }
  }

  lemma TakeRegisterKeepsInv(h: Hub)
    requires Inv(h) && Enabled(h, TakeRegister)
    ensures Inv(Next(h, TakeRegister))
  {
    hide Subsequence;
    var r := Next(h, TakeRegister);
    QueueTail(h.register);
    assert h.register[0] in h.register;
    forall d | d in OpenClients(r) ensures Fresh(r, d) {
      assert d in OpenClients(h) || d == h.register[0];
    }
    forall d ensures Subsequence(Given(r, d), Offered(r, d)) && ClosedOnce(r, d) {
      assert Given(r, d) == Given(h, d) && Offered(r, d) == Offered(h, d);
      assert ClosedOnce(h, d);
    }
  }

  lemma UnregisterSpent(h: Hub, r: Hub)
    requires Inv(h) && h.unregister != [] && r == h.(unregister := h.unregister[1..])
    ensures Inv(r)
  {
    hide Subsequence;
    forall d | d in OpenClients(r) ensures Fresh(r, d) { assert d in OpenClients(h); }
    forall d ensures Subsequence(Given(r, d), Offered(r, d)) && ClosedOnce(r, d) {
      assert Given(r, d) == Given(h, d) && Offered(r, d) == Offered(h, d);
      assert ClosedOnce(h, d);
    }
  }

  lemma TakeUnregisterKeepsInv(h: Hub)
    requires Inv(h) && Enabled(h, TakeUnregister)
    ensures Inv(Next(h, TakeUnregister))
  {
    hide CloseClient;
    var r, c := Next(h, TakeUnregister), h.unregister[0];
    var rest := h.(unregister := h.unregister[1..]);
    if c in h.clients {
      CloseKeepsInv(h, c, rest.(clients := h.clients - {c}));
    } else {
      assert r == rest;
      hide Next;
      UnregisterSpent(h, rest);
    }
  }

  /** Taking a broadcast logs it and puts every client in wait for it. */
  lemma TakeBroadcastKeepsRest(h: Hub)
    requires Enabled(h, TakeBroadcast)
    ensures var r := Next(h, TakeBroadcast);
            && r == h.(broadcast := h.broadcast[1..], log := h.log + [h.broadcast[0]], phase := r.phase)
            && (if h.clients == {} then r.phase.Idle?
                else r.phase.Fanout? && r.phase.message == h.broadcast[0] && r.phase.waiting == h.clients
                     && r.phase.evicting == {})
  {
  }

  lemma TakeBroadcastOffers(h: Hub, d: ClientId)
    requires Enabled(h, TakeBroadcast) && Subsequence(Given(h, d), Offered(h, d))
    ensures var r := Next(h, TakeBroadcast); Subsequence(Given(r, d), Offered(r, d))
  {
    hide Subsequence;
    var r := Next(h, TakeBroadcast);
    TakeBroadcastKeepsRest(h);
    hide Next;
    hide Enabled;
    assert Given(r, d) == Given(h, d) && Offered(h, d) == h.log;
    if r.phase.Fanout? && d in r.phase.waiting {
      assert r.log[..|r.log| - 1] == h.log;
    } else {
      LongerLog(Given(h, d), h.log, h.broadcast[0]);
    }
  }

  lemma TakeBroadcastKeepsInv(h: Hub)
    requires Inv(h) && Enabled(h, TakeBroadcast)
    ensures Inv(Next(h, TakeBroadcast))
  {
    hide Subsequence;
    var r := Next(h, TakeBroadcast);
    TakeBroadcastKeepsRest(h);
    forall d | d in OpenClients(r) ensures Fresh(r, d) { assert d in OpenClients(h); }
    forall d ensures Subsequence(Given(r, d), Offered(r, d)) && ClosedOnce(r, d) {
      assert ClosedOnce(h, d);
      TakeBroadcastOffers(h, d);
    }
    hide Next;
    hide Enabled;
  }

  lemma ShutdownKeepsInv(h: Hub, s: Step)
    requires Inv(h) && Enabled(h, s) && (s.SeeDone? || s.CloseOne? || s.ClosedAll?)
    ensures Inv(Next(h, s))
  {
    hide Subsequence;
    hide CloseClient;
    var r := Next(h, s);
    if s.CloseOne? {
      CloseKeepsInv(h, s.c, h.(phase := Closing(h.phase.left - {s.c})));
    } else {
      forall d | d in OpenClients(r) ensures Fresh(r, d) { assert d in OpenClients(h); }
      forall d ensures Subsequence(Given(r, d), Offered(r, d)) && ClosedOnce(r, d) {
        assert Given(r, d) == Given(h, d) && Offered(r, d) == Offered(h, d);
        assert ClosedOnce(h, d);
      }
    }
  }

  /** A delivery appends the message to what the client has been given, unless the buffer is full. */
  lemma DeliverGives(h: Hub, c: ClientId, d: ClientId)
    requires Enabled(h, Deliver(c)) && Fresh(h, c)
    ensures Given(Next(h, Deliver(c)), d) == if d == c
              && !Full(h, c) then Given(h, c) + [h.phase.message] else Given(h, d)
    ensures d == c && Full(h, c) ==> c in Next(h, Deliver(c)).missed
  {
  }

  /** What a delivery leaves as it was, when the channel is open. */
  lemma DeliverKeepsRest(h: Hub, c: ClientId)
    requires Enabled(h, Deliver(c)) && Fresh(h, c)
    ensures var r := Next(h, Deliver(c));
            && r.log == h.log && r.clients == h.clients && r.register == h.register && r.registered == h.registered
            && r.unregister == h.unregister && r.broadcast == h.broadcast
            && r.closes == h.closes && r.misfires == h.misfires && r.send.Keys == h.send.Keys && r.since == h.since
            && r.phase.Fanout? && r.phase.message == h.phase.message && r.phase.waiting == h.phase.waiting - {c}
            && h.phase.evicting <= r.phase.evicting <= h.phase.evicting + {c} && h.missed <= r.missed
  {
    var p, r := h.phase, Next(h, Deliver(c));
    var served := p.(waiting := p.waiting - {c});
    hide Enabled;
    if Full(h, c) {
      assert r == h.(phase := served.(evicting := p.evicting + {c}), missed := h.missed + {c});
    } else {
      assert r == h.(phase := served, send := h.send[c := Chan(h.send[c].buffer + [p.message], false)]);
    }
    hide Next;
  }

  lemma DeliverClosesNone(h: Hub, c: ClientId, d: ClientId)
    requires Enabled(h, Deliver(c)) && Fresh(h, c)
    ensures ChanOf(Next(h, Deliver(c)), d).closed == ChanOf(h, d).closed
    ensures Fresh(h, d) ==> Fresh(Next(h, Deliver(c)), d)
    ensures ClosedOnce(h, d) ==> ClosedOnce(Next(h, Deliver(c)), d)
  {
    DeliverKeepsRest(h, c);
    assert ChanOf(Next(h, Deliver(c)), d).closed == ChanOf(h, d).closed;
    hide Next;
  }

  /** The one that has been served is offered the message at last. */
  lemma DeliverOffered(h: Hub, c: ClientId, d: ClientId)
    requires Enabled(h, Deliver(c)) && Fresh(h, c) && h.log != []
    ensures Offered(Next(h, Deliver(c)), d) == if d == c then h.log else Offered(h, d)
    ensures Offered(h, c) == h.log[..|h.log| - 1]
  {
    DeliverKeepsRest(h, c);
    hide Next;
  }

  lemma DeliverOffers(h: Hub, c: ClientId, d: ClientId)
    requires Enabled(h, Deliver(c)) && Fresh(h, c) && Subsequence(Given(h, d), Offered(h, d))
    requires h.log != [] && h.log[|h.log| - 1] == h.phase.message
    ensures var r := Next(h, Deliver(c)); Subsequence(Given(r, d), Offered(r, d))
  {
    hide Subsequence;
    hide Next;
    hide Given;
    hide Offered;
    hide Full;
    DeliverGives(h, c, d);
    DeliverOffered(h, c, d);
    LogEnds(h.log);
    if d == c && Full(h, c) {
      LongerLog(Given(h, c), Offered(h, c), h.phase.message);
    } else if d == c {
      BothGrow(Given(h, c), Offered(h, c), h.phase.message);
    }
  }

  lemma LogEnds(log: seq<Message>)
    requires log != []
    ensures log == log[..|log| - 1] + [log[|log| - 1]]
  {
  }

  lemma DeliverKeepsInv(h: Hub, c: ClientId)
    requires Inv(h) && Enabled(h, Deliver(c))
    ensures Inv(Next(h, Deliver(c)))
  {
    hide Subsequence;
    var r := Next(h, Deliver(c));
    assert c in OpenClients(h) && Fresh(h, c);
    DeliverKeepsRest(h, c);
    assert PhaseFits(r) && QueuesFit(r);
    hide PhaseFits;
    hide QueuesFit;
    hide DistinctQueue;
    hide Next;
    hide Enabled;
    forall d ensures (Fresh(h, d) ==> Fresh(r, d)) && ClosedOnce(r, d) {
      DeliverClosesNone(h, c, d);
      assert ClosedOnce(h, d);
    }
    hide Fresh;
    hide ClosedOnce;
    forall d ensures Subsequence(Given(r, d), Offered(r, d)) {
      DeliverOffers(h, c, d);
    }
    hide Given;
    hide Offered;
    forall d | d in OpenClients(r) ensures Fresh(r, d) { assert d in OpenClients(h); }
  }

  lemma WorkerStepKeepsInv(h: Hub, s: Step)
    requires Inv(h) && Enabled(h, s) && (s.Evict? || s.FanoutDone?)
    ensures Inv(Next(h, s))
  {
    hide Subsequence;
    var r := Next(h, s);
    forall d | d in OpenClients(r) ensures Fresh(r, d) { assert d in OpenClients(h); }
    forall d ensures Subsequence(Given(r, d), Offered(r, d)) && ClosedOnce(r, d) {
      assert Given(r, d) == Given(h, d) && Offered(r, d) == Offered(h, d);
      assert ClosedOnce(h, d);
    }
  }

  lemma StepKeepsInv(h: Hub, s: Step)
    requires Inv(h) && Enabled(h, s) && RegistersOnce(h, s)
    ensures Inv(Next(h, s))
  {
    match s
    case Register(c, queued) => RegisterKeepsInv(h, c, queued);
    case Receive(c) => ReceiveKeepsInv(h, c);
    case TakeUnregister => TakeUnregisterKeepsInv(h);
    case TakeBroadcast => TakeBroadcastKeepsInv(h);
    case Deliver(c) => DeliverKeepsInv(h, c);
    case SeeDone => ShutdownKeepsInv(h, s);
    case CloseOne(_) => ShutdownKeepsInv(h, s);
    case ClosedAll => ShutdownKeepsInv(h, s);
    case Evict(_, _) => WorkerStepKeepsInv(h, s);
    case FanoutDone => WorkerStepKeepsInv(h, s);
    case Unregister(_, _) => QueueStepKeepsInv(h, s);
    case Broadcast(_, _) => QueueStepKeepsInv(h, s);
    case Cancel => QueueStepKeepsInv(h, s);
    case TakeRegister => TakeRegisterKeepsInv(h);
  }

  // ---- nothing is lost while the buffer has room -------------------------------------------------

  /** The client has been given every broadcast since Run took it in, in order. */
  predicate HasAll(h: Hub, c: ClientId) {
    c in h.since && h.since[c] <= |Offered(h, c)| && Given(h, c) == Offered(h, c)[h.since[c]..]
  }

  ghost predicate NothingMissed(h: Hub) {
    && (forall c :: c in OpenClients(h) && c !in h.missed ==> HasAll(h, c))
    && (forall c :: c in h.register ==> Given(h, c) == [])
    && (forall c :: c !in h.registered ==> Given(h, c) == [])
  }

  predicate Quiet(s: Step) {
    !s.TakeRegister? && !s.TakeBroadcast? && !s.Deliver? && !s.TakeUnregister? && !s.CloseOne? && !s.Receive?
  }

  lemma QuietStepGives(h: Hub, s: Step, c: ClientId)
    requires Enabled(h, s) && Quiet(s)
    ensures var r := Next(h, s); Given(r, c) == Given(h, c) && Offered(r, c) == Offered(h, c)
  {
  }

  lemma QuietStepKeepsRest(h: Hub, s: Step)
    requires Enabled(h, s) && Quiet(s)
    ensures var r := Next(h, s);
            && r.missed == h.missed && r.since == h.since && OpenClients(r) <= OpenClients(h)
            && (r.register == h.register || (s.Register? && r.register == h.register + [s.c]))
            && h.registered <= r.registered && (s.Register? ==> s.c in r.registered)
  {
  }

  lemma QuietStepKeepsAll(h: Hub, s: Step)
    requires Inv(h) && NothingMissed(h) && Enabled(h, s) && RegistersOnce(h, s) && Quiet(s)
    ensures NothingMissed(Next(h, s))
  {
    QuietStepKeepsRest(h, s);
    forall c ensures Given(Next(h, s), c) == Given(h, c) && Offered(Next(h, s), c) == Offered(h, c) {
      QuietStepGives(h, s, c);
    }
    hide Next;
    hide Enabled;
    hide Inv;
    hide Given;
    hide Offered;
  }

  lemma ReceiveKeepsAll(h: Hub, c: ClientId)
    requires Inv(h) && NothingMissed(h) && Enabled(h, Receive(c))
    ensures NothingMissed(Next(h, Receive(c)))
  {
    hide PhaseFits;
    hide ClosedOnce;
    hide DistinctQueue;
    hide Subsequence;
    var r := Next(h, Receive(c));
    forall d ensures Given(r, d) == Given(h, d) && Offered(r, d) == Offered(h, d) {}
    forall d | d in OpenClients(r) && d !in r.missed ensures HasAll(r, d) { assert d in OpenClients(h); }
  }

  lemma TakeRegisterKeepsAll(h: Hub)
    requires Inv(h) && NothingMissed(h) && Enabled(h, TakeRegister)
    ensures NothingMissed(Next(h, TakeRegister))
  {
    var r, c := Next(h, TakeRegister), h.register[0];
    QueueTail(h.register);
    assert c in h.register;
    forall d ensures Given(r, d) == Given(h, d) && Offered(r, d) == Offered(h, d) {}
    forall d | d in OpenClients(r) && d !in r.missed ensures HasAll(r, d) { assert d == c || d in OpenClients(h); }
  }

  lemma TakeBroadcastKeepsAll(h: Hub)
    requires Inv(h) && NothingMissed(h) && Enabled(h, TakeBroadcast)
    ensures NothingMissed(Next(h, TakeBroadcast))
  {
    hide PhaseFits;
    hide ClosedOnce;
    hide DistinctQueue;
    hide Subsequence;
    var r := Next(h, TakeBroadcast);
    TakeBroadcastKeepsRest(h);
    hide Next;
    hide Enabled;
    forall d ensures Given(r, d) == Given(h, d) {}
    forall d | d in OpenClients(r) && d !in r.missed ensures HasAll(r, d) {
      assert d in OpenClients(h) && d in r.phase.waiting;
      assert r.log[..|r.log| - 1] == h.log;
    }
  }

  lemma DeliverHasAll(h: Hub, c: ClientId, d: ClientId)
    requires Enabled(h, Deliver(c)) && Fresh(h, c) && h.log != [] && h.log[|h.log| - 1] == h.phase.message
    requires HasAll(h, d) && d !in Next(h, Deliver(c)).missed
    ensures HasAll(Next(h, Deliver(c)), d)
  {
    DeliverGives(h, c, d);
    DeliverKeepsRest(h, c);
    DeliverOffered(h, c, d);
    hide Next;
    hide Enabled;
    hide Given;
    hide Offered;
    if d == c {
      SuffixGrows(h.log, h.since[c]);
    }
  }

  lemma SuffixGrows(log: seq<Message>, since: nat)
    requires log != [] && since < |log|
    ensures log[..|log| - 1][since..] + [log[|log| - 1]] == log[since..]
  {
  }

  lemma DeliverKeepsAll(h: Hub, c: ClientId)
    requires Inv(h) && NothingMissed(h) && Enabled(h, Deliver(c))
    ensures NothingMissed(Next(h, Deliver(c)))
  {
    var r := Next(h, Deliver(c));
    assert c in OpenClients(h) && Fresh(h, c) && c !in h.register && c in h.registered;
    assert h.log != [] && h.log[|h.log| - 1] == h.phase.message;
    hide Inv;
    hide HasAll;
    DeliverKeepsRest(h, c);
    forall d ensures d != c ==> Given(r, d) == Given(h, d) {
      DeliverGives(h, c, d);
    }
    hide Next;
    hide Enabled;
    hide Given;
    forall d | d in OpenClients(r) && d !in r.missed ensures HasAll(r, d) {
      assert d in OpenClients(h);
      DeliverHasAll(h, c, d);
    }
  }

  function Closed(h: Hub, s: Step): ClientId
    requires Enabled(h, s) && (s.TakeUnregister? || s.CloseOne?)
  {
    if s.CloseOne? then s.c else h.unregister[0]
  }

  predicate Untouched(h: Hub, s: Step, d: ClientId)
    requires Enabled(h, s) && (s.TakeUnregister? || s.CloseOne?)
  {
    d != Closed(h, s) || d !in OpenClients(h)
  }

  /** Closing a client changes nothing for the others. */
  lemma CloseGives(h: Hub, s: Step, d: ClientId)
    requires Enabled(h, s) && (s.TakeUnregister? || s.CloseOne?)
    requires Closed(h, s) in OpenClients(h) ==> Fresh(h, Closed(h, s))
    ensures Untouched(h, s, d) ==> Given(Next(h, s), d) == Given(h, d) && Offered(Next(h, s), d) == Offered(h, d)
    ensures d in OpenClients(Next(h, s)) ==> d in OpenClients(h) && Untouched(h, s, d)
  {
    if s.CloseOne? {
      CloseOneGives(h, s.c, d);
    }
  }

  lemma CloseOneGives(h: Hub, c: ClientId, d: ClientId)
    requires Enabled(h, CloseOne(c)) && Fresh(h, c)
    ensures d != c ==>
              Given(Next(h, CloseOne(c)), d) == Given(h, d) && Offered(Next(h, CloseOne(c)), d) == Offered(h, d)
    ensures OpenClients(Next(h, CloseOne(c))) == OpenClients(h) - {c}
  {
  }

  lemma CloseClientKeepsRest(h: Hub, c: ClientId)
    ensures var r := CloseClient(h, c); r == h.(send := r.send, closes := r.closes, phase := r.phase)
  {
    hide SafeClose;
  }

  lemma CloseKeepsRest(h: Hub, s: Step)
    requires Enabled(h, s) && (s.TakeUnregister? || s.CloseOne?)
    ensures var r := Next(h, s);
            r.missed == h.missed && r.register == h.register && r.registered == h.registered && r.since == h.since
  {
    hide CloseClient;
    var c := Closed(h, s);
    if s.CloseOne? {
      CloseClientKeepsRest(h.(phase := Closing(h.phase.left - {c})), c);
    } else {
      CloseClientKeepsRest(h.(unregister := h.unregister[1..], clients := h.clients - {c}), c);
    }
  }

  lemma CloseStepKeepsAll(h: Hub, s: Step)
    requires Inv(h) && NothingMissed(h) && Enabled(h, s) && (s.TakeUnregister? || s.CloseOne?)
    ensures NothingMissed(Next(h, s))
  {
    var r, c := Next(h, s), Closed(h, s);
    assert c in OpenClients(h) ==> Fresh(h, c) && c !in h.register && c in h.registered;
    CloseKeepsRest(h, s);
    forall d ensures d in h.register || d !in h.registered ==> Untouched(h, s, d) {}
    hide Next;
    hide Inv;
    hide Given;
    hide Offered;
    hide OpenClients;
    forall d ensures Untouched(h, s, d) ==> Given(r, d) == Given(h, d) && Offered(r, d) == Offered(h, d) {
      CloseGives(h, s, d);
    }
    forall d | d in OpenClients(r) && d !in h.missed ensures HasAll(r, d) {
      CloseGives(h, s, d);
    }
  }

  lemma StepKeepsAll(h: Hub, s: Step)
    requires Inv(h) && NothingMissed(h) && Enabled(h, s) && RegistersOnce(h, s)
    ensures NothingMissed(Next(h, s))
  {
    match s
    case Receive(c) => ReceiveKeepsAll(h, c);
    case TakeRegister => TakeRegisterKeepsAll(h);
    case TakeBroadcast => TakeBroadcastKeepsAll(h);
    case Deliver(c) => DeliverKeepsAll(h, c);
    case TakeUnregister => CloseStepKeepsAll(h, s);
    case CloseOne(_) => CloseStepKeepsAll(h, s);
    case _ => QuietStepKeepsAll(h, s);
  }

  // ---- runs ---------------------------------------------------------------------------------------

  ghost predicate Run(states: seq<Hub>, steps: seq<Step>) {
    && |states| == |steps| + 1
    && forall i :: 0 <= i < |steps| ==> Enabled(states[i], steps[i]) && states[i + 1] == Next(states[i], steps[i])
  }

  lemma {:induction false} RunKeepsInv(states: seq<Hub>, steps: seq<Step>, n: nat)
    requires Run(states, steps) && n <= |steps| && Inv(states[0])
    requires forall i :: 0 <= i < |steps| ==> RegistersOnce(states[i], steps[i])
    ensures Inv(states[n])
  {
    if n > 0 {
      RunKeepsInv(states, steps, n - 1);
      StepKeepsInv(states[n - 1], steps[n - 1]);
    }
  }

  lemma {:induction false} RunKeepsAll(states: seq<Hub>, steps: seq<Step>, n: nat)
    requires Run(states, steps) && n <= |steps| && states[0] == NewHub(states[0].poolSize)
    requires forall i :: 0 <= i < |steps| ==> RegistersOnce(states[i], steps[i])
    ensures Inv(states[n]) && NothingMissed(states[n])
  {
    if n > 0 {
      RunKeepsAll(states, steps, n - 1);
      StepKeepsInv(states[n - 1], steps[n - 1]);
      StepKeepsAll(states[n - 1], steps[n - 1]);
    } else {
      NewHubInv(states[0].poolSize);
    }
  }

  /** Between fan-outs, an open client whose buffer has never been full has been given exactly the
      broadcasts that Run has taken since it took the client in. */
  lemma NoLossWithoutFullBuffer(states: seq<Hub>, steps: seq<Step>, n: nat, c: ClientId)
    requires Run(states, steps) && n <= |steps| && states[0] == NewHub(states[0].poolSize)
    requires forall i :: 0 <= i < |steps| ==> RegistersOnce(states[i], steps[i])
    requires var h := states[n]; h.phase.Idle? && c in h.clients && c !in h.missed
    ensures var h := states[n];
            c in h.since && h.since[c] <= |h.log| && Given(h, c) == h.log[h.since[c]..]
  {
    RunKeepsAll(states, steps, n);
    assert c in OpenClients(states[n]);
  }

  /** What the invariant means to a client, along any run from a new hub. */
  lemma HubIsSafe(states: seq<Hub>, steps: seq<Step>, n: nat, c: ClientId)
    requires Run(states, steps) && n <= |steps| && states[0] == NewHub(states[0].poolSize)
    requires forall i :: 0 <= i < |steps| ==> RegistersOnce(states[i], steps[i])
    ensures var h := states[n];
            && (c in h.closes ==> h.closes[c] <= 1)
            && h.misfires == 0 && !h.phase.Panicked?
            && (c in h.received ==> Subsequence(h.received[c], h.log))
  {
    NewHubInv(states[0].poolSize);
    RunKeepsInv(states, steps, n);
    var h := states[n];
    if c in h.received {
      FrontIsSubsequence(h.received[c], ChanOf(h, c).buffer, Offered(h, c), h.log);
    }
    hide Subsequence;
  }

  // ---- buffers ------------------------------------------------------------------------------------

  /** A request is queued, and a message delivered, as long as its channel has room: 100, 100, 2048 and
      512 places. */
  lemma RoomIs(h: Hub, c: ClientId, m: Message)
    ensures Enabled(h, Register(c, true)) <==> |h.register| < 100
    ensures Enabled(h, Unregister(c, true)) <==> |h.unregister| < 100
    ensures Enabled(h, Broadcast(m, true)) <==> |h.broadcast| < 2048
    ensures Full(h, c) <==> c in h.send && |h.send[c].buffer| >= 512
  {
  }

  ghost predicate BuffersFit(h: Hub) {
    forall c :: c in h.send ==> |h.send[c].buffer| <= 512
  }

  lemma StepKeepsBuffers(h: Hub, s: Step)
    requires BuffersFit(h) && Enabled(h, s)
    ensures BuffersFit(Next(h, s))
  {
    if s.Deliver? {
      DeliverKeepsBuffers(h, s.c);
    } else if s.TakeUnregister? || s.CloseOne? {
      CloseKeepsBuffers(h, s);
    } else {
      QuietKeepsBuffers(h, s);
    }
    hide Next;
    hide Enabled;
  }

  lemma DeliverKeepsBuffers(h: Hub, c: ClientId)
    requires BuffersFit(h) && Enabled(h, Deliver(c))
    ensures BuffersFit(Next(h, Deliver(c)))
  {
    var r := Next(h, Deliver(c));
    assert r.send == h.send || (!Full(h, c) &&
                                r.send == h.send[c := Chan(ChanOf(h, c).buffer + [h.phase.message], false)]);
    hide Next;
    hide Enabled;
  }

  lemma CloseKeepsBuffers(h: Hub, s: Step)
    requires BuffersFit(h) && Enabled(h, s) && (s.TakeUnregister? || s.CloseOne?)
    ensures BuffersFit(Next(h, s))
  {
    var c := Closed(h, s);
    assert |SafeClose(ChanOf(h, c)).ch.buffer| <= |ChanOf(h, c).buffer|;
    assert Next(h, s).send == h.send || Next(h, s).send == h.send[c := SafeClose(ChanOf(h, c)).ch];
    hide Next;
    hide Enabled;
    hide SafeClose;
  }

  lemma QuietKeepsBuffers(h: Hub, s: Step)
    requires BuffersFit(h) && Enabled(h, s) && !s.Deliver? && !s.TakeUnregister? && !s.CloseOne?
    ensures BuffersFit(Next(h, s))
  {
    hide CloseClient;
    if s.Receive? {
      assert Next(h, s).send == h.send[s.c := Chan(h.send[s.c].buffer[1..], h.send[s.c].closed)];
    } else {
      assert Next(h, s).send == h.send || (s.Register? && Next(h, s).send == h.send[s.c := Chan([], false)]);
    }
    hide Next;
    hide Enabled;
  }

  /** Along every run no channel holds more than its places, so nobody ever waits inside a send. */
  lemma {:induction false} ChannelsNeverOverflow(states: seq<Hub>, steps: seq<Step>, n: nat, c: ClientId)
    requires Run(states, steps) && n <= |steps| && states[0] == NewHub(states[0].poolSize)
    requires forall i :: 0 <= i < |steps| ==> RegistersOnce(states[i], steps[i])
    ensures BuffersFit(states[n])
    ensures var h := states[n];
            |h.register| <= 100 && |h.unregister| <= 100 && |h.broadcast| <= 2048
            && (c in h.send ==> |h.send[c].buffer| <= 512)
  {
    NewHubInv(states[0].poolSize);
    RunKeepsInv(states, steps, n);
    hide Next;
    hide Subsequence;
    if n > 0 {
      ChannelsNeverOverflow(states, steps, n - 1, c);
      assert states[n - 1 + 1] == Next(states[n - 1], steps[n - 1]);
      StepKeepsBuffers(states[n - 1], steps[n - 1]);
    }
  }

  // ---- what registering twice does ----------------------------------------------------------------

  /** A client that registers again after it has been unregistered with messages in its channel
      makes the next unregister close the channel a second time, and the loop panics. */
  lemma RegisteringTwicePanics(h: Hub, c: ClientId)
    requires h.phase.Idle? && c in h.clients && c in h.send && !h.send[c].closed && |h.send[c].buffer| >= 2
    requires h.register == [] && h.unregister == []
    ensures var h1 := Next(h, Unregister(c, true));
            var h2 := Next(h1, TakeUnregister);
            var h3 := Next(h2, Register(c, true));
            var h4 := Next(h3, TakeRegister);
            var h5 := Next(h4, Unregister(c, true));
            Next(h5, TakeUnregister).phase.Panicked?
  {
    var h1 := Next(h, Unregister(c, true));
    assert h1.unregister == [c];
    var h2 := Next(h1, TakeUnregister);
    assert h2.unregister == [] && h2.send[c].closed && h2.send[c].buffer != [];
    var h3 := Next(h2, Register(c, true));
    assert h3.register == [c];
    var h4 := Next(h3, TakeRegister);
    var h5 := Next(h4, Unregister(c, true));
    assert h5.unregister == [c] && c in h5.clients;
  }

  // ---- an unregister that comes first -------------------------------------------------------------

  /** Run takes an unregister for a client it does not know yet: the request is spent, and when the
      client's registration comes it is taken in all the same. Known clients are closed, no others. */
  lemma UnregisterClosesIff(h: Hub)
    requires Inv(h) && Enabled(h, TakeUnregister)
    ensures var c, r := h.unregister[0], Next(h, TakeUnregister);
            && r.unregister == h.unregister[1..] && r.register == h.register && c !in r.clients
            && (c in h.clients ==> c in r.send && r.send[c].closed)
            && (c !in h.clients ==> r.clients == h.clients && r.send == h.send)
  {
    var c := h.unregister[0];
    assert c in h.clients ==> Fresh(h, c);
  }

  lemma RegistrationOpens(h: Hub)
    requires Inv(h) && Enabled(h, TakeRegister)
    ensures var c, r := h.register[0], Next(h, TakeRegister);
            c in r.clients && Fresh(r, c) && r.unregister == h.unregister && r.phase.Idle?
  {
    assert h.register[0] in h.register;
  }

  /** Known to Run, open, and about to be dropped by nobody. */
  predicate Unattended(h: Hub, c: ClientId) {
    c in h.clients && c in h.send && !h.send[c].closed && c !in h.unregister
    && (h.phase.Idle? || (h.phase.Fanout? && c !in h.phase.evicting))
  }

  /** With both requests of a client waiting, the channel Run happens to read first decides. */
  lemma OrderDecides(h: Hub, c: ClientId)
    requires Inv(h) && Enabled(h, TakeRegister) && Enabled(h, TakeUnregister)
    requires h.register[0] == c && h.unregister[0] == c && c !in h.unregister[1..]
    ensures Unattended(Next(Next(h, TakeUnregister), TakeRegister), c)
    ensures var r := Next(Next(h, TakeRegister), TakeUnregister);
            c !in r.clients && c in r.send && r.send[c].closed
  {
    UnregisterClosesIff(h);
    StepKeepsInv(h, TakeUnregister);
    RegistrationOpens(Next(h, TakeUnregister));
    RegistrationOpens(h);
    StepKeepsInv(h, TakeRegister);
    UnregisterClosesIff(Next(h, TakeRegister));
  }

  lemma UnattendedStays(h: Hub, s: Step, c: ClientId)
    requires Inv(h) && Enabled(h, s) && RegistersOnce(h, s) && Unattended(h, c)
    requires !(s.Unregister? && s.c == c) && !s.SeeDone?
    ensures Unattended(Next(h, s), c) || (c in Next(h, s).missed && s == Deliver(c) && Full(h, c))
  {
    assert s.TakeUnregister? && h.unregister[0] in h.clients ==> Fresh(h, h.unregister[0]);
    assert s.Deliver? ==> s.c in OpenClients(h) && Fresh(h, s.c);
    hide Inv;
    if s.Deliver? {
      DeliverKeepsRest(h, s.c);
      DeliverClosesNone(h, s.c, c);
    } else {
      UnattendedElsewhere(h, s, c);
      hide Next;
    }
  }

  lemma UnattendedElsewhere(h: Hub, s: Step, c: ClientId)
    requires Enabled(h, s) && Unattended(h, c) && !s.Deliver?
    requires s.TakeUnregister? && h.unregister[0] in h.clients ==> Fresh(h, h.unregister[0])
    requires !(s.Unregister? && s.c == c) && !s.SeeDone?
    ensures Unattended(Next(h, s), c)
  {
    if s.TakeUnregister? {
      var rest := h.(unregister := h.unregister[1..]);
      assert Next(h, s) == if h.unregister[0] in h.clients
                           then CloseClient(rest.(clients := h.clients - {h.unregister[0]}), h.unregister[0]) else rest;
      hide Next;
    } else {
      hide CloseClient;
    }
  }

  /** After that such a client, whose pumps are gone, stays with an open channel for as long as nobody
      unregisters it again and the hub is not stopped: until a delivery finds its buffer full. */
  lemma {:induction false} UnattendedUntilFull(states: seq<Hub>, steps: seq<Step>, n: nat, c: ClientId)
    requires Run(states, steps) && n <= |steps| && Inv(states[0]) && Unattended(states[0], c)
    requires forall i :: 0 <= i < |steps| ==> RegistersOnce(states[i], steps[i])
    requires forall i :: 0 <= i < |steps| ==> !(steps[i].Unregister? && steps[i].c == c) && !steps[i].SeeDone?
    ensures Inv(states[n])
    ensures Unattended(states[n], c) || exists i :: 0 <= i < n && steps[i] == Deliver(c) && Full(states[i], c)
  {
    if n > 0 {
      UnattendedUntilFull(states, steps, n - 1, c);
      StepKeepsInv(states[n - 1], steps[n - 1]);
      assert states[n - 1 + 1] == Next(states[n - 1], steps[n - 1]);
      if Unattended(states[n - 1], c) {
        UnattendedStays(states[n - 1], steps[n - 1], c);
      }
    }
  }
}
