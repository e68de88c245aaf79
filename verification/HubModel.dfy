/**
 The WebSocket hub (web/websocket/hub.go) as atomic steps: one event loop (Run), the workers of a
 fan-out, the callers of Register, Unregister, Broadcast and Stop, and the write pumps that read the
 Send channels. Any step that is enabled may come next.
 */
module HubModel {

  type Message = string
  type ClientId = nat

  const SEND_CAP := 512
  const REGISTER_CAP := 100
  const UNREGISTER_CAP := 100
  const BROADCAST_CAP := 2048

  /** A buffered Go channel. */
  datatype Chan = Chan(buffer: seq<Message>, closed: bool)

  /** Where Run is. In a fan-out `waiting` clients have not been served, `evicting` ones had a full
      buffer and their worker is inside Unregister. */
  datatype Phase =
    | Idle
    | Fanout(message: Message, waiting: set<ClientId>, evicting: set<ClientId>, workers: nat)
    | Closing(left: set<ClientId>)
    | Stopped
    | Panicked

  /** From `log` on, the fields are history: the messages Run has taken, what each write pump has
      read, how often each channel was closed, how many sends hit a closed channel, who has called
      Register, the length of the log when Run took the client in, and whose buffer was ever full. */
  datatype Hub = Hub(
    clients: set<ClientId>, register: seq<ClientId>, unregister: seq<ClientId>, broadcast: seq<Message>,
    cancelled: bool, phase: Phase, send: map<ClientId, Chan>, poolSize: nat,
    log: seq<Message>, received: map<ClientId, seq<Message>>, closes: map<ClientId, nat>,
    misfires: nat, registered: set<ClientId>, since: map<ClientId, nat>, missed: set<ClientId>)

  datatype Step =
    | Register(c: ClientId, queued: bool)
    | Unregister(c: ClientId, queued: bool)
    | Broadcast(m: Message, queued: bool)
    | Cancel
    | Receive(c: ClientId)
    | TakeRegister
    | TakeUnregister
    | TakeBroadcast
    | SeeDone
    | CloseOne(c: ClientId)
    | ClosedAll
    | Deliver(c: ClientId)
    | Evict(c: ClientId, queued: bool)
    | FanoutDone

  function NewHub(poolSize: nat): Hub {
    Hub({}, [], [], [], false, Idle, map[], poolSize, [], map[], map[], 0, {}, map[], {})
  }

  // ---- channels -----------------------------------------------------------------------------------

  datatype CloseResult = CloseResult(ch: Chan, closedNow: bool, panics: bool)

  /** The hub's "safe" close: try to read; close if a value came or nothing was there, unless the
      read says the channel is closed. A value left in a closed channel reads as open. */
  function SafeClose(ch: Chan): CloseResult {
    if ch.buffer != [] then
      if ch.closed then CloseResult(Chan(ch.buffer[1..], true), false, true)
      else CloseResult(Chan(ch.buffer[1..], true), true, false)
    else if ch.closed then CloseResult(ch, false, false)
    else CloseResult(Chan([], true), true, false)
  }

  predicate Full(h: Hub, c: ClientId) {
    c in h.send && |h.send[c].buffer| >= SEND_CAP
  }

  // ---- steps --------------------------------------------------------------------------------------

  /** A select with `ctx.Done()` may give up only once the hub is cancelled; Broadcast also gives up
      after 100 ms. */
  predicate Enabled(h: Hub, s: Step) {
    match s
    case Register(c, queued) => if queued then |h.register| < REGISTER_CAP else h.cancelled
    case Unregister(c, queued) => if queued then |h.unregister| < UNREGISTER_CAP else h.cancelled
    case Broadcast(_, queued) => queued ==> |h.broadcast| < BROADCAST_CAP
    case Cancel => true
    case Receive(c) => c in h.send && h.send[c].buffer != []
    case TakeRegister => h.phase.Idle? && h.register != []
    case TakeUnregister => h.phase.Idle? && h.unregister != []
    case TakeBroadcast => h.phase.Idle? && h.broadcast != []
    case SeeDone => h.phase.Idle? && h.cancelled
    case CloseOne(c) => h.phase.Closing? && c in h.phase.left
    case ClosedAll => h.phase.Closing? && h.phase.left == {}
    case Deliver(c) => h.phase.Fanout? && c in h.phase.waiting && |h.phase.evicting| < h.phase.workers
    case Evict(c, queued) => h.phase.Fanout? && c in h.phase.evicting
                             && if queued then |h.unregister| < UNREGISTER_CAP else h.cancelled
    case FanoutDone => h.phase.Fanout? && h.phase.waiting == {} && h.phase.evicting == {}
  }

  function ChanOf(h: Hub, c: ClientId): Chan {
    if c in h.send then h.send[c] else Chan([], false)
  }

  function CloseClient(h: Hub, c: ClientId): Hub {
    var r := SafeClose(ChanOf(h, c));
    h.(send := h.send[c := r.ch],
       closes := if r.closedNow then h.closes[c := (if c in h.closes then h.closes[c] else 0) + 1] else h.closes,
       phase := if r.panics then Panicked else h.phase)
  }

  function Next(h: Hub, s: Step): Hub
    requires Enabled(h, s)
  {
    match s
    case Register(c, queued) =>
      h.(registered := h.registered + {c},
         send := if c in h.send then h.send else h.send[c := Chan([], false)],
         received := if c in h.received then h.received else h.received[c := []],
         register := if queued then h.register + [c] else h.register)
    case Unregister(c, queued) => h.(unregister := if queued then h.unregister + [c] else h.unregister)
    case Broadcast(m, queued) => h.(broadcast := if queued then h.broadcast + [m] else h.broadcast)
    case Cancel => h.(cancelled := true)
    case Receive(c) =>
      var ch := h.send[c];
      h.(send := h.send[c := Chan(ch.buffer[1..], ch.closed)],
         received := h.received[c := (if c in h.received then h.received[c] else []) + [ch.buffer[0]]])
    case TakeRegister => h.(register := h.register[1..], clients := h.clients + {h.register[0]},
                              since := h.since[h.register[0] := |h.log|])
    case TakeUnregister =>
      var c := h.unregister[0];
      var rest := h.(unregister := h.unregister[1..]);
      if c in h.clients then CloseClient(rest.(clients := h.clients - {c}), c) else rest
    case TakeBroadcast =>
      var m := h.broadcast[0];
      var taken := h.(broadcast := h.broadcast[1..], log := h.log + [m]);
      if h.clients == {} then taken
      else taken.(phase := Fanout(m, h.clients, {}, if |h.clients| < h.poolSize then |h.clients| else h.poolSize))
    case SeeDone => h.(phase := Closing(h.clients))
    case CloseOne(c) => CloseClient(h.(phase := Closing(h.phase.left - {c})), c)
    case ClosedAll => h.(clients := {}, phase := Stopped)
    case Deliver(c) =>
      var p, ch := h.phase, ChanOf(h, c);
      var served := h.(phase := p.(waiting := p.waiting - {c}));
      if ch.closed then served.(misfires := h.misfires + 1)
      else if |ch.buffer| < SEND_CAP then served.(send := h.send[c := Chan(ch.buffer + [p.message], false)])
      else h.(phase := p.(waiting := p.waiting - {c}, evicting := p.evicting + {c}), missed := h.missed + {c})
    case Evict(c, queued) =>
      h.(unregister := if queued then h.unregister + [c] else h.unregister,
         phase := h.phase.(evicting := h.phase.evicting - {c}))
    case FanoutDone => h.(phase := Idle)
  }
}
