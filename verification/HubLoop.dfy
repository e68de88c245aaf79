/**
 The hub as an object whose methods update its fields: the callers' side and the cases of Run's
 select statement. Each method is one atomic step of HubModel.
 */
module HubLoop {
  import M = HubModel
  import HubSafety
  import opened HubModel

  class HubObject {
    var clients: set<ClientId>
    var register: seq<ClientId>
    var unregister: seq<ClientId>
    var broadcast: seq<Message>
    var cancelled: bool
    var phase: Phase
    var send: map<ClientId, Chan>
    var poolSize: nat
    ghost var log: seq<Message>
    ghost var received: map<ClientId, seq<Message>>
    ghost var closes: map<ClientId, nat>
    ghost var misfires: nat
    ghost var registered: set<ClientId>
    ghost var since: map<ClientId, nat>
    ghost var missed: set<ClientId>

    ghost function St(): Hub
      reads this
    {
      M.Hub(clients, register, unregister, broadcast, cancelled, phase, send, poolSize,
            log, received, closes, misfires, registered, since, missed)
    }

    /** Two workers per processor, at least 10 and at most 100. */
    constructor (cpus: nat)
      ensures 10 <= poolSize <= 100 && (5 <= cpus <= 50 ==> poolSize == 2 * cpus)
      ensures St() == NewHub(poolSize)
    {
      poolSize := if cpus * 2 > 100 then 100 else if cpus * 2 < 10 then 10 else cpus * 2;
      clients, register, unregister, broadcast, cancelled, phase, send := {}, [], [], [], false, Idle, map[];
      log, received, closes, misfires, registered, since, missed := [], map[], map[], 0, {}, map[], {};
    }

    /** A client is made with its Send channel. */
    method NewClient(c: ClientId)
      modifies this`send, this`registered, this`received
      ensures send == if c in old(send) then old(send) else old(send)[c := Chan([], false)]
      ensures received == if c in old(received) then old(received) else old(received)[c := []]
      ensures registered == old(registered) + {c}
    {
      if c !in send {
        send := send[c := Chan([], false)];
      }
      if c !in received {
        received := received[c := []];
      }
      registered := registered + {c};
    }

    /** Register of a new client. */
    method Register(c: ClientId) returns (queued: bool)
      requires |register| < REGISTER_CAP || cancelled
      modifies this`register, this`send, this`registered, this`received
      ensures Enabled(old(St()), Step.Register(c, queued)) && St() == Next(old(St()), Step.Register(c, queued))
    {
      hide CloseClient;
      NewClient(c);
      queued := |register| < REGISTER_CAP;
      if queued && cancelled {
        queued := *;
      }
      if queued {
        register := register + [c];
      }
    }

    method Unregister(c: ClientId) returns (queued: bool)
      requires |unregister| < UNREGISTER_CAP || cancelled
      modifies this`unregister
      ensures Enabled(old(St()), Step.Unregister(c, queued)) && St() == Next(old(St()), Step.Unregister(c, queued))
    {
      queued := |unregister| < UNREGISTER_CAP;
      if queued && cancelled {
        queued := *;
      }
      if queued {
        unregister := unregister + [c];
      }
    }

    method Stop()
      modifies this`cancelled
      ensures St() == Next(old(St()), Step.Cancel)
    {
      cancelled := true;
    }

    /** The close inside a select: read if something is there, close unless the read says closed. */
    method CloseSend(c: ClientId)
      modifies this`send, this`closes, this`phase
      ensures St() == CloseClient(old(St()), c)
    {
      var ch := if c in send then send[c] else Chan([], false);
      var stillOpen := true;
      if ch.buffer != [] {
        ch := ch.(buffer := ch.buffer[1..]);
      } else if ch.closed {
        stillOpen := false;
      }
      if stillOpen {
        if ch.closed {
          phase := Panicked;
        } else {
          ch := ch.(closed := true);
          closes := closes[c := (if c in closes then closes[c] else 0) + 1];
        }
      }
      send := send[c := ch];
    }

    method TakeRegister()
      requires Enabled(St(), Step.TakeRegister)
      modifies this`register, this`clients, this`since
      ensures St() == Next(old(St()), Step.TakeRegister)
    {
      var c := register[0];
      register := register[1..];
      clients := clients + {c};
      since := since[c := |log|];
    }

    method TakeUnregister()
      requires Enabled(St(), Step.TakeUnregister)
      modifies this`unregister, this`clients, this`send, this`closes, this`phase
      ensures St() == Next(old(St()), Step.TakeUnregister)
    {
      var c := unregister[0];
      unregister := unregister[1..];
      if c in clients {
        clients := clients - {c};
        CloseSend(c);
      }
    }

    method TakeBroadcast()
      requires Enabled(St(), Step.TakeBroadcast)
      modifies this`broadcast, this`log, this`phase
      ensures St() == Next(old(St()), Step.TakeBroadcast)
    {
      var message := broadcast[0];
      broadcast := broadcast[1..];
      log := log + [message];
      if clients == {} {
        return;
      }
      phase := Fanout(message, clients, {}, if |clients| < poolSize then |clients| else poolSize);
    }

    /** A worker's select on one client. */
    method Deliver(c: ClientId)
      requires Enabled(St(), Step.Deliver(c))
      modifies this`phase, this`send, this`misfires, this`missed
      ensures St() == Next(old(St()), Step.Deliver(c))
    {
      hide CloseClient;
      var ch := if c in send then send[c] else Chan([], false);
      var message := phase.message;
      phase := phase.(waiting := phase.waiting - {c});
      if ch.closed {
        misfires := misfires + 1;
      } else if |ch.buffer| < SEND_CAP {
        send := send[c := Chan(ch.buffer + [message], false)];
      } else {
        phase := phase.(evicting := phase.evicting + {c});
        missed := missed + {c};
      }
    }

    /** The shutdown case of Run as a whole, with no pump reading in between: from any state that a
        run can be in, every client is closed, once and without a panic, and nobody else is touched. */
    method Shutdown()
      requires HubSafety.Inv(St()) && Enabled(St(), Step.SeeDone)
      modifies this
      ensures HubSafety.Inv(St()) && phase.Stopped? && clients == {}
      ensures forall c :: c in old(clients) ==> c in send && send[c].closed && c in closes && closes[c] == 1
      ensures forall c :: c !in old(clients) ==> SameChannel(old(St()), St(), c)
    {
      hide HubSafety.Inv;
      hide SameChannel;
      hide Next;
      ghost var start := St();
      StartsClosing(start);
      phase := Closing(clients);
      AllSame(start, St());
      ghost var before := St();
      CloseLeft();
      SameTwice(start, before, St());
      EndsClosing(St());
      AllClosedOnce(St(), start.clients);
      ghost var closed := St();
      clients := {};
      phase := Stopped;
      AllSame(closed, St());
      SameTwice(start, closed, St());
    }

    /** The closing loop. */
    method CloseLeft()
      requires HubSafety.Inv(St()) && phase == Closing(clients)
      modifies this`phase, this`send, this`closes
      ensures HubSafety.Inv(St()) && phase == Closing({})
      ensures forall c :: c in clients ==> c in send && send[c].closed
      ensures forall c :: c !in clients ==> SameChannel(old(St()), St(), c)
    {
      hide HubSafety.Inv;
      hide SameChannel;
      hide Next;
      ghost var start := St();
      AllSame(start, start);
      while phase.left != {}
        invariant phase.Closing? && HubSafety.Inv(St()) && phase.left <= clients
        invariant forall c :: c !in clients ==> SameChannel(start, St(), c)
        invariant forall c :: c in clients && c !in phase.left ==> c in send && send[c].closed
        decreases phase.left
      {
        var c :| c in phase.left;
        ghost var h := St();
        CloseNext(c);
        StaysSame(start, h, St(), c);
        StayClosed(h, St(), c);
      }
    }

    /** One round of the closing loop. */
    method CloseNext(c: ClientId)
      requires HubSafety.Inv(St()) && Enabled(St(), Step.CloseOne(c))
      modifies this`phase, this`send, this`closes
      ensures St() == Next(old(St()), Step.CloseOne(c)) && HubSafety.Inv(St())
      ensures phase == Closing(old(phase).left - {c}) && c in send && send[c].closed
      ensures forall d :: d != c ==> SameChannel(old(St()), St(), d)
    {
      ClosesOne(St(), c);
      hide HubSafety.Inv;
      hide SameChannel;
      phase := Closing(phase.left - {c});
      CloseSend(c);
    }
  }

  lemma StartsClosing(h: Hub)
    requires HubSafety.Inv(h) && Enabled(h, Step.SeeDone)
    ensures HubSafety.Inv(h.(phase := Closing(h.clients)))
  {
    HubSafety.ShutdownKeepsInv(h, Step.SeeDone);
  }

  lemma EndsClosing(h: Hub)
    requires HubSafety.Inv(h) && Enabled(h, Step.ClosedAll)
    ensures HubSafety.Inv(h.(clients := {}, phase := Stopped))
  {
    HubSafety.ShutdownKeepsInv(h, Step.ClosedAll);
  }

  lemma AllSame(h: Hub, r: Hub)
    requires r.send == h.send && r.closes == h.closes
    ensures forall c :: SameChannel(h, r, c)
  {
  }

  lemma StaysSame(h: Hub, r: Hub, q: Hub, c: ClientId)
    requires c in h.clients && forall d :: d != c ==> SameChannel(r, q, d)
    requires forall d :: d !in h.clients ==> SameChannel(h, r, d)
    ensures forall d :: d !in h.clients ==> SameChannel(h, q, d)
  {
    forall d | d !in h.clients ensures SameChannel(h, q, d) {
      assert SameChannel(h, r, d) && SameChannel(r, q, d);
    }
  }

  lemma SameTwice(h: Hub, r: Hub, q: Hub)
    requires forall d :: d !in h.clients ==> SameChannel(h, r, d) && SameChannel(r, q, d)
    ensures forall d :: d !in h.clients ==> SameChannel(h, q, d)
  {
  }

  lemma StayClosed(h: Hub, r: Hub, c: ClientId)
    requires forall d :: d != c ==> SameChannel(h, r, d)
    ensures forall d :: d != c && d in h.send && h.send[d].closed ==> d in r.send && r.send[d].closed
  {
    forall d | d != c && d in h.send && h.send[d].closed ensures d in r.send && r.send[d].closed {
      assert SameChannel(h, r, d);
    }
  }

  ghost predicate SameChannel(h: Hub, r: Hub, c: ClientId) {
    (c in r.send <==> c in h.send) && (c in r.closes <==> c in h.closes)
    && (c in h.send ==> r.send[c] == h.send[c]) && (c in h.closes ==> r.closes[c] == h.closes[c])
  }

  /** In a state of a run, closing a remaining client closes its channel and touches no other. */
  lemma ClosesOne(h: Hub, c: ClientId)
    requires HubSafety.Inv(h) && Enabled(h, Step.CloseOne(c))
    ensures var r := Next(h, Step.CloseOne(c));
            && HubSafety.Inv(r) && r.phase == Closing(h.phase.left - {c}) && r.clients == h.clients
            && c in r.send && r.send[c].closed && forall d :: d != c ==> SameChannel(h, r, d)
  {
    HubSafety.ShutdownKeepsInv(h, Step.CloseOne(c));
    assert HubSafety.Fresh(h, c);
    hide HubSafety.Inv;
  }

  lemma AllClosedOnce(h: Hub, cs: set<ClientId>)
    requires HubSafety.Inv(h) && forall c :: c in cs ==> c in h.send && h.send[c].closed
    ensures forall c :: c in cs ==> c in h.closes && h.closes[c] == 1
  {
    forall c | c in cs ensures c in h.closes && h.closes[c] == 1 {
      assert HubSafety.ClosedOnce(h, c);
    }
  }
}
