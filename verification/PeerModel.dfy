/**
 A WireGuard or AmneziaWG tunnel: its server record, its peers in order of id, and the peers that the
 running interface knows. What each operation of web/service/awg_service.go does to them;
 web/service/wg_service.go is the same code on its own tables.
 */
module PeerModel {
  import opened Ipam
  import Renewal

  datatype Peer = Peer(
    id: nat, uuid: string, email: string, key: string, enable: bool,
    ipv4: string, ipv6: Option<nat>,
    up: int, down: int, total: int, allTime: int, expiry: int, reset: int)

  datatype V6 = V6Off | V6On(addr: Option<nat>, pool: Cidr)

  datatype Server = Server(enable: bool, ipv4: string, pool4: Cidr, v6: V6)

  /** `applied`: the public keys in the configuration that the interface last took over. */
  datatype Tunnel = Tunnel(server: Server, peers: seq<Peer>, nextId: nat, applied: set<string>)

  datatype Outcome = Done | NotAUuid | UuidTaken | EmailTaken | NotAllocated(error: Error) | NoSuchPeer | UpdateRejected

  /** Cumulative counters of one peer, as the interface reports them. */
  datatype Stat = Stat(key: string, tx: int, rx: int)

  function MapPeers(f: Peer -> Peer, ps: seq<Peer>): (r: seq<Peer>)
    ensures |r| == |ps| && forall i :: 0 <= i < |ps| ==> r[i] == f(ps[i])
  {
    if ps == [] then [] else [f(ps[0])] + MapPeers(f, ps[1..])
  }

  function EnabledKeys(ps: seq<Peer>): set<string> {
    set i | 0 <= i < |ps| && ps[i].enable :: ps[i].key
  }

  /** applyServerConfig: the interface takes over the enabled peers, unless the commands fail. */
  function Reapplied(t: Tunnel, works: bool): Tunnel {
    if works then t.(applied := EnabledKeys(t.peers)) else t
  }

  function ReappliedIfUp(t: Tunnel, works: bool): Tunnel {
    if t.server.enable then Reapplied(t, works) else t
  }

  function IndexOfId(ps: seq<Peer>, id: nat): (r: Option<nat>)
    ensures r.Some? ==> r.value < |ps| && ps[r.value].id == id
    ensures r.None? ==> forall i :: 0 <= i < |ps| ==> ps[i].id != id
  {
    if ps == [] then None
    else if ps[0].id == id then Some(0)
    else
      var r := IndexOfId(ps[1..], id);
      assert forall i :: 0 < i < |ps| ==> ps[i] == ps[1..][i - 1];
      if r.None? then None else Some(r.value + 1)
  }

  predicate HasUuid(ps: seq<Peer>, uuid: string) {
    exists i :: 0 <= i < |ps| && ps[i].uuid == uuid
  }

  /** The unique index on the email column. */
  predicate HasEmail(ps: seq<Peer>, email: string) {
    exists i :: 0 <= i < |ps| && ps[i].email == email
  }

  function Addresses4(ps: seq<Peer>): (r: seq<string>)
    ensures |r| == |ps| && forall i :: 0 <= i < |ps| ==> r[i] == ps[i].ipv4
  {
    if ps == [] then [] else [ps[0].ipv4] + Addresses4(ps[1..])
  }

  function Addresses6(ps: seq<Peer>): (r: seq<Option<nat>>)
    ensures |r| == |ps| && forall i :: 0 <= i < |ps| ==> r[i] == ps[i].ipv6
  {
    if ps == [] then [] else [ps[0].ipv6] + Addresses6(ps[1..])
  }

  // ---- clients ------------------------------------------------------------------------------------

  /** What AddClient cannot compute: a generated UUID, a new key pair, whether a given UUID parses,
      and whether the configuration could be applied. */
  datatype Luck = Luck(uuid: string, key: string, parses: bool, works: bool)

  function Allocated6(server: Server, ps: seq<Peer>, given: Option<nat>): Result<Option<nat>> {
    match server.v6
    case V6Off => Ok(given)
    case V6On(addr, pool) =>
      match Allocate6(pool, addr, Addresses6(ps))
      case Ok(a) => Ok(Some(a))
      case Err(e) => Err(e)
  }

  function AddClient(t: Tunnel, req: Peer, luck: Luck): (Tunnel, Outcome) {
    var uuid := if req.uuid == "" then luck.uuid else req.uuid;
    if req.uuid != "" && !luck.parses then (t, NotAUuid)
    else if HasUuid(t.peers, uuid) then (t, UuidTaken)
    else
      match Allocate4(t.server.pool4, t.server.ipv4, Addresses4(t.peers))
      case Err(e) => (t, NotAllocated(e))
      case Ok(ipv4) =>
        match Allocated6(t.server, t.peers, req.ipv6)
        case Err(e) => (t, NotAllocated(e))
        case Ok(ipv6) =>
          if HasEmail(t.peers, req.email) then (t, EmailTaken)
          else (Reapplied(Added(t, req.(uuid := uuid, key := luck.key, ipv4 := ipv4, ipv6 := ipv6)), luck.works), Done)
  }

  /** The new row; the first client also enables the server. The enable column has the default true,
      which the database layer puts in the place of a false. */
  function Added(t: Tunnel, p: Peer): Tunnel {
    t.(peers := t.peers + [p.(id := t.nextId, enable := true)],
       nextId := t.nextId + 1, server := t.server.(enable := true))
  }

  function DeleteClient(t: Tunnel, id: nat, works: bool): (Tunnel, Outcome) {
    match IndexOfId(t.peers, id)
    case None => (t, NoSuchPeer)
    case Some(i) => (ReappliedIfUp(t.(peers := t.peers[..i] + t.peers[i + 1..]), works), Done)
  }

  function ToggleClient(t: Tunnel, id: nat, enable: bool, works: bool): (Tunnel, Outcome) {
    match IndexOfId(t.peers, id)
    case None => (t, NoSuchPeer)
    case Some(i) => (ReappliedIfUp(t.(peers := t.peers[i := t.peers[i].(enable := enable)]), works), Done)
  }

  /** UpdateClientByUUID, the row found: everything but id and UUID is what the caller sends. */
  function UpdateClient(t: Tunnel, id: nat, p: Peer, works: bool): (Tunnel, Outcome) {
    match IndexOfId(t.peers, id)
    case None => (t, NoSuchPeer)
    case Some(i) =>
      if exists j :: 0 <= j < |t.peers| && j != i && t.peers[j].email == p.email then (t, EmailTaken)
      else (ReappliedIfUp(t.(peers := t.peers[i := p.(id := id, uuid := t.peers[i].uuid)]), works), Done)
  }

  function ResetClientTraffic(t: Tunnel, id: nat): Tunnel {
    match IndexOfId(t.peers, id)
    case None => t
    case Some(i) => t.(peers := t.peers[i := Emptied(t.peers[i])])
  }

  // ---- the server ---------------------------------------------------------------------------------

  function SaveServer(t: Tunnel, server: Server, works: bool): Tunnel {
    ReappliedIfUp(t.(server := server), works)
  }

  function ToggleServer(t: Tunnel, enable: bool, works: bool): Tunnel {
    var u := t.(server := t.server.(enable := enable));
    if enable then Reapplied(u, works) else u.(applied := {})
  }

  function DeleteAllClients(t: Tunnel): Tunnel {
    t.(peers := [], server := t.server.(enable := false), applied := if t.server.enable then {} else t.applied)
  }

  const AWG_ADDRESS := "10.66.66.1/24"
  const WG_ADDRESS := "10.77.77.1/24"

  /** 10.66.66.0/24 or 10.77.77.0/24 */
  function DefaultPool(wg: bool): Cidr {
    if wg then WgPool() else AwgPool()
  }

  function AwgPool(): Cidr {
    assert LowBitsZero(0x0A42_4200, 8);
    V4(0x0A42_4200, 24)
  }

  function WgPool(): Cidr {
    assert LowBitsZero(0x0A4D_4D00, 8);
    V4(0x0A4D_4D00, 24)
  }

  function ResetToDefaults(t: Tunnel, wg: bool): Tunnel {
    DeleteAllClients(t).(server := t.server.(enable := false,
             ipv4 := if wg then WG_ADDRESS else AWG_ADDRESS, pool4 := DefaultPool(wg)))
  }

  // ---- traffic ------------------------------------------------------------------------------------

  function Emptied(p: Peer): Peer {
    p.(up := 0, down := 0)
  }

  function Rise(before: int, after: int): nat {
    if after > before then after - before else 0
  }

  function Sample(p: Peer, s: Stat): Peer {
    p.(up := s.tx, down := s.rx, allTime := p.allTime + Rise(p.up, s.tx) + Rise(p.down, s.rx))
  }

  /** The client map: the last row with the key. */
  function IndexOfKey(ps: seq<Peer>, key: string): (r: Option<nat>)
    ensures r.Some? ==> r.value < |ps| && ps[r.value].key == key
    ensures r.None? ==> forall i :: 0 <= i < |ps| ==> ps[i].key != key
    ensures r.Some? ==> forall i :: r.value < i < |ps| ==> ps[i].key != key
  {
    if ps == [] then None
    else if ps[|ps| - 1].key == key then Some(|ps| - 1)
    else IndexOfKey(ps[..|ps| - 1], key)
  }

  function SampleOne(ps: seq<Peer>, s: Stat): (r: seq<Peer>)
    ensures |r| == |ps|
  {
    match IndexOfKey(ps, s.key)
    case None => ps
    case Some(i) => ps[i := Sample(ps[i], s)]
  }

  function SampleAll(ps: seq<Peer>, stats: seq<Stat>): (r: seq<Peer>)
    ensures |r| == |ps|
  {
    if stats == [] then ps
    else SampleOne(SampleAll(ps, stats[..|stats| - 1]), stats[|stats| - 1])
  }

  // ---- limits -------------------------------------------------------------------------------------

  predicate Due(p: Peer, now: int) {
    p.reset > 0 && 0 < p.expiry <= now
  }

  function Renew(p: Peer, now: int): Peer {
    if Due(p, now)
    then Emptied(p).(expiry := Renewal.NextPeerExpiry(p.expiry, p.reset, now), enable := true)
    else p
  }

  predicate Waiting(p: Peer) {
    p.enable && p.expiry < 0 && (p.up > 0 || p.down > 0)
  }

  function Start(p: Peer, now: int): Peer {
    if Waiting(p) then p.(expiry := now + -p.expiry) else p
  }

  predicate Invalid(p: Peer, now: int) {
    (p.total > 0 && p.up + p.down >= p.total) || 0 < p.expiry <= now
  }

  function Limit(p: Peer, now: int): Peer {
    if p.enable && Invalid(p, now) then p.(enable := false) else p
  }

  /** Each of the three passes reads the clock. */
  datatype Clocks = Clocks(renew: int, start: int, limit: int)

  function RenewAll(ps: seq<Peer>, now: int): seq<Peer> {
    MapPeers(p => Renew(p, now), ps)
  }

  function StartAll(ps: seq<Peer>, now: int): seq<Peer> {
    MapPeers(p => Start(p, now), ps)
  }

  function LimitAll(ps: seq<Peer>, now: int): seq<Peer> {
    MapPeers(p => Limit(p, now), ps)
  }

  /** autoRenewClients returns whether it re-enabled a client. */
  predicate SomeReenabled(ps: seq<Peer>, now: int) {
    exists i :: 0 <= i < |ps| && Due(ps[i], now) && !ps[i].enable
  }

  /** disableInvalidClients returns whether it disabled one. */
  predicate SomeDisabled(ps: seq<Peer>, now: int) {
    exists i :: 0 <= i < |ps| && ps[i].enable && Invalid(ps[i], now)
  }

  function Enforced(ps: seq<Peer>, c: Clocks): seq<Peer> {
    LimitAll(StartAll(RenewAll(ps, c.renew), c.start), c.limit)
  }

  predicate NeedReconfig(ps: seq<Peer>, c: Clocks) {
    SomeReenabled(ps, c.renew) || SomeDisabled(StartAll(RenewAll(ps, c.renew), c.start), c.limit)
  }

  /** UpdateTrafficStats; `stats` is None when the interface is down or cannot be read. */
  function Tick(t: Tunnel, stats: Option<seq<Stat>>, c: Clocks, works: bool): Tunnel {
    if !t.server.enable || stats.None? then t
    else
      var sampled := SampleAll(t.peers, stats.value);
      var u := t.(peers := Enforced(sampled, c));
      if NeedReconfig(sampled, c) then Reapplied(u, works) else u
  }

  predicate Reenables(p: Peer, now: int) {
    !p.enable && p.total > 0 && (p.expiry == 0 || p.expiry > now)
  }

  function Reenabled(p: Peer, now: int): Peer {
    if Reenables(p, now) then p.(enable := true) else p
  }

  /** ResetAllClientTraffics. Its second update has no condition; `unconditional` says whether the
      database layer accepts that. */
  function ResetAllClientTraffics(t: Tunnel, now: int, unconditional: bool, works: bool): (Tunnel, Outcome) {
    var u := t.(peers := MapPeers(p => Reenabled(p, now), t.peers));
    if !unconditional then (u, UpdateRejected)
    else (ReappliedIfUp(u.(peers := MapPeers(p => Emptied(p), u.peers)), works), Done)
  }
}
