/**
 What every run of tunnel operations keeps: addresses, identities and keys stay distinct, the running
 interface knows exactly the enabled peers, and no peer's lifetime total falls below its counters.
 */
module PeerRuns {
  import opened Ipam
  import opened PeerModel

  datatype Op =
    | OpAdd(req: Peer, luck: Luck)
    | OpDelete(id: nat, works: bool)
    | OpToggle(id: nat, enable: bool, works: bool)
    | OpUpdate(id: nat, p: Peer, works: bool)
    | OpSave(server: Server, works: bool)
    | OpToggleServer(enable: bool, works: bool)
    | OpDeleteAll
    | OpDefaults(wg: bool)
    | OpTick(stats: Option<seq<Stat>>, clocks: Clocks, works: bool)
    | OpReset(id: nat)
    | OpResetAll(now: int, unconditional: bool, works: bool)

  function Apply(t: Tunnel, op: Op): Tunnel {
    match op
    case OpAdd(req, luck) => AddClient(t, req, luck).0
    case OpDelete(id, works) => DeleteClient(t, id, works).0
    case OpToggle(id, enable, works) => ToggleClient(t, id, enable, works).0
    case OpUpdate(id, p, works) => UpdateClient(t, id, p, works).0
    case OpSave(server, works) => SaveServer(t, server, works)
    case OpToggleServer(enable, works) => ToggleServer(t, enable, works)
    case OpDeleteAll => DeleteAllClients(t)
    case OpDefaults(wg) => ResetToDefaults(t, wg)
    case OpTick(stats, c, works) => Tick(t, stats, c, works)
    case OpReset(id) => ResetClientTraffic(t, id)
    case OpResetAll(now, unconditional, works) => ResetAllClientTraffics(t, now, unconditional, works).0
  }

  function Run(t: Tunnel, ops: seq<Op>): Tunnel {
    if ops == [] then t else Apply(Run(t, ops[..|ops| - 1]), ops[|ops| - 1])
  }

  // ---- distinct addresses -------------------------------------------------------------------------

  predicate Clash(p: Peer, q: Peer) {
    p.id == q.id || p.uuid == q.uuid || p.email == q.email || p.key == q.key
    || StripMask(p.ipv4) == StripMask(q.ipv4) || (p.ipv6.Some? && p.ipv6 == q.ipv6)
  }

  predicate ClashesWithServer(server: Server, p: Peer) {
    || (server.ipv4 != "" && StripMask(server.ipv4) == StripMask(p.ipv4))
    || (server.v6.V6On? && server.v6.addr.Some? && server.v6.addr == p.ipv6)
  }

  ghost predicate Apart(ps: seq<Peer>) {
    forall i, j :: 0 <= i < j < |ps| ==> !Clash(ps[i], ps[j])
  }

  ghost predicate ClearOf(server: Server, ps: seq<Peer>) {
    forall i :: 0 <= i < |ps| ==> !ClashesWithServer(server, ps[i])
  }

  ghost predicate OldIds(ps: seq<Peer>, nextId: nat) {
    forall i :: 0 <= i < |ps| ==> ps[i].id < nextId
  }

  ghost predicate Inv(t: Tunnel) {
    Apart(t.peers) && ClearOf(t.server, t.peers) && OldIds(t.peers, t.nextId)
  }

  lemma ApartEither(ps: seq<Peer>)
    requires Apart(ps)
    ensures forall i, j :: 0 <= i < |ps| && 0 <= j < |ps| && i != j ==> !Clash(ps[i], ps[j])
  {
    forall i, j | 0 <= i < |ps| && 0 <= j < |ps| && i != j ensures !Clash(ps[i], ps[j]) {
      if i < j {
        assert !Clash(ps[i], ps[j]);
      } else {
        assert !Clash(ps[j], ps[i]);
      }
    }
  }

  predicate SameIdentity(p: Peer, q: Peer) {
    p.id == q.id && p.uuid == q.uuid && p.email == q.email && p.key == q.key && p.ipv4 == q.ipv4 && p.ipv6 == q.ipv6
  }

  ghost predicate SameIdentities(ps: seq<Peer>, qs: seq<Peer>) {
    |ps| == |qs| && forall i :: 0 <= i < |ps| ==> SameIdentity(ps[i], qs[i])
  }

  lemma SameIdentitiesKeep(server: Server, ps: seq<Peer>, qs: seq<Peer>, nextId: nat)
    requires Apart(ps) && ClearOf(server, ps) && OldIds(ps, nextId) && SameIdentities(ps, qs)
    ensures Apart(qs) && ClearOf(server, qs) && OldIds(qs, nextId)
  {
    forall i, j | 0 <= i < j < |qs| ensures !Clash(qs[i], qs[j]) {
      assert SameIdentity(ps[i], qs[i]) && SameIdentity(ps[j], qs[j]) && !Clash(ps[i], ps[j]);
    }
    forall i | 0 <= i < |qs| ensures !ClashesWithServer(server, qs[i]) && qs[i].id < nextId {
      assert SameIdentity(ps[i], qs[i]) && !ClashesWithServer(server, ps[i]);
    }
  }

  lemma {:induction false} SamplingKeepsIdentities(ps: seq<Peer>, stats: seq<Stat>)
    ensures SameIdentities(ps, SampleAll(ps, stats))
    ensures forall i :: 0 <= i < |ps| ==> SampleAll(ps, stats)[i].enable == ps[i].enable
  {
    if stats != [] {
      SamplingKeepsIdentities(ps, stats[..|stats| - 1]);
    }
  }

  lemma EnforcedAt(ps: seq<Peer>, c: Clocks, i: int)
    requires 0 <= i < |ps|
    ensures |Enforced(ps, c)| == |ps| && Enforced(ps, c)[i] == Limit(Start(Renew(ps[i], c.renew), c.start), c.limit)
  {
  }

  lemma TickKeepsIdentities(t: Tunnel, stats: Option<seq<Stat>>, c: Clocks, works: bool)
    ensures SameIdentities(t.peers, Tick(t, stats, c, works).peers)
  {
    if t.server.enable && stats.Some? {
      var sampled := SampleAll(t.peers, stats.value);
      SamplingKeepsIdentities(t.peers, stats.value);
      forall i | 0 <= i < |t.peers| ensures SameIdentity(t.peers[i], Enforced(sampled, c)[i]) {
        EnforcedAt(sampled, c, i);
        assert SameIdentity(t.peers[i], sampled[i]);
      }
      assert |Enforced(sampled, c)| == |t.peers|;
    }
  }

  /** What the key generator and the caller of an update or of SaveServer must respect. */
  ghost predicate Guard(t: Tunnel, op: Op) {
    match op
    case OpAdd(req, luck) =>
      && (forall i :: 0 <= i < |t.peers| ==> t.peers[i].key != luck.key)
      && (t.server.v6.V6Off? ==> req.ipv6.None?)
    case OpUpdate(id, p, _) =>
      forall i :: 0 <= i < |t.peers| && t.peers[i].id == id ==>
          p.key == t.peers[i].key && p.ipv4 == t.peers[i].ipv4 && p.ipv6 == t.peers[i].ipv6
    case OpSave(server, _) => ClearOf(server, t.peers)
    case _ => true
  }

  lemma NewAddress6(server: Server, ps: seq<Peer>, a: Option<nat>)
    requires Allocated6(server, ps, None) == Ok(a)
    ensures a.Some? ==> forall i :: 0 <= i < |ps| ==> ps[i].ipv6 != a
    ensures server.v6.V6On? && server.v6.addr.Some? ==> server.v6.addr != a
  {
    if server.v6.V6On? {
      var i := Allocate6IsLeastFree(server.v6.pool, server.v6.addr, Addresses6(ps));
      forall k | 0 <= k < |ps| ensures ps[k].ipv6 != a {
        assert Addresses6(ps)[k] == ps[k].ipv6;
      }
    }
  }

  lemma NewAddress4(server: Server, ps: seq<Peer>, a: string)
    requires IsNew(a, server.ipv4, Addresses4(ps))
    ensures forall i :: 0 <= i < |ps| ==> StripMask(ps[i].ipv4) != StripMask(a)
    ensures server.ipv4 != "" ==> StripMask(server.ipv4) != StripMask(a)
  {
    forall k | 0 <= k < |ps| ensures StripMask(ps[k].ipv4) != StripMask(a) {
      assert Addresses4(ps)[k] == ps[k].ipv4;
    }
  }

  lemma AddedKeepsInv(t: Tunnel, p: Peer)
    requires Inv(t) && !ClashesWithServer(t.server, p)
    requires forall i :: 0 <= i < |t.peers| ==> !Clash(t.peers[i], p.(id := t.nextId))
    ensures Inv(Added(t, p))
  {
  }

  lemma AddKeepsInv(t: Tunnel, req: Peer, luck: Luck)
    requires Inv(t) && Guard(t, OpAdd(req, luck))
    ensures Inv(AddClient(t, req, luck).0)
  {
    var (u, outcome) := AddClient(t, req, luck);
    if outcome == Done {
      var uuid := if req.uuid == "" then luck.uuid else req.uuid;
      var ipv4 := Allocate4(t.server.pool4, t.server.ipv4, Addresses4(t.peers)).value;
      var ipv6 := Allocated6(t.server, t.peers, req.ipv6).value;
      var p := req.(uuid := uuid, key := luck.key, ipv4 := ipv4, ipv6 := ipv6);
      Allocate4IsNew(t.server.pool4, t.server.ipv4, Addresses4(t.peers), ipv4);
      NewAddress4(t.server, t.peers, ipv4);
      assert Allocated6(t.server, t.peers, None) == Ok(ipv6);
      NewAddress6(t.server, t.peers, ipv6);
      AddedKeepsInv(t, p);
    }
  }

  lemma RemovedKeepsApart(t: Tunnel, i: nat)
    requires Inv(t) && i < |t.peers|
    ensures var qs := t.peers[..i] + t.peers[i + 1..];
            Apart(qs) && ClearOf(t.server, qs) && OldIds(qs, t.nextId)
  {
    var qs := t.peers[..i] + t.peers[i + 1..];
    assert forall k :: 0 <= k < |qs| ==> qs[k] == t.peers[if k < i then k else k + 1];
  }

  lemma ReplacedKeepsApart(t: Tunnel, i: nat, p: Peer)
    requires Inv(t) && i < |t.peers| && p.id == t.peers[i].id && !ClashesWithServer(t.server, p)
    requires forall j :: 0 <= j < |t.peers| && j != i ==> !Clash(t.peers[j], p)
    ensures var qs := t.peers[i := p];
            Apart(qs) && ClearOf(t.server, qs) && OldIds(qs, t.nextId)
  {
    var qs := t.peers[i := p];
    forall a, b | 0 <= a < b < |qs| ensures !Clash(qs[a], qs[b]) {
      if a == i {
        assert !Clash(t.peers[b], p);
      } else if b == i {
        assert !Clash(t.peers[a], p);
      } else {
        assert !Clash(t.peers[a], t.peers[b]);
      }
    }
  }

  lemma UpdateKeepsInv(t: Tunnel, id: nat, p: Peer, works: bool)
    requires Inv(t) && Guard(t, OpUpdate(id, p, works))
    ensures Inv(UpdateClient(t, id, p, works).0)
  {
    var r := IndexOfId(t.peers, id);
    if r.Some? && UpdateClient(t, id, p, works).1 == Done {
      var i := r.value;
      var q := p.(id := id, uuid := t.peers[i].uuid);
      ApartEither(t.peers);
      forall j | 0 <= j < |t.peers| && j != i ensures !Clash(t.peers[j], q) {
        assert !Clash(t.peers[j], t.peers[i]);
      }
      assert !ClashesWithServer(t.server, t.peers[i]);
      ReplacedKeepsApart(t, i, q);
    }
  }

  lemma RowKeepsInv(t: Tunnel, i: nat, q: Peer)
    requires Inv(t) && i < |t.peers| && SameIdentity(t.peers[i], q)
    ensures Inv(t.(peers := t.peers[i := q]))
  {
    SameIdentitiesKeep(t.server, t.peers, t.peers[i := q], t.nextId);
  }

  lemma RowStepKeepsInv(t: Tunnel, op: Op)
    requires Inv(t) && (op.OpToggle? || op.OpReset?)
    ensures Inv(Apply(t, op))
  {
    var r := IndexOfId(t.peers, op.id);
    if r.Some? {
      RowKeepsInv(t, r.value,
                  if op.OpReset? then Emptied(t.peers[r.value]) else t.peers[r.value].(enable := op.enable));
    }
  }

  lemma TableStepKeepsInv(t: Tunnel, op: Op)
    requires Inv(t) && (op.OpTick? || op.OpResetAll?)
    ensures Inv(Apply(t, op))
  {
    hide MapPeers;
    if op.OpTick? {
      TickKeepsIdentities(t, op.stats, op.clocks, op.works);
    }
    SameIdentitiesKeep(t.server, t.peers, Apply(t, op).peers, t.nextId);
  }

  lemma DeleteKeepsInv(t: Tunnel, id: nat, works: bool)
    requires Inv(t)
    ensures Inv(DeleteClient(t, id, works).0)
  {
    var r := IndexOfId(t.peers, id);
    if r.Some? { RemovedKeepsApart(t, r.value); }
  }

  lemma StepKeepsInv(t: Tunnel, op: Op)
    requires Inv(t) && Guard(t, op)
    ensures Inv(Apply(t, op))
  {
    if op.OpAdd? {
      AddKeepsInv(t, op.req, op.luck);
    } else if op.OpDelete? {
      DeleteKeepsInv(t, op.id, op.works);
    } else if op.OpUpdate? {
      UpdateKeepsInv(t, op.id, op.p, op.works);
    } else if op.OpToggle? || op.OpReset? {
      RowStepKeepsInv(t, op);
    } else if op.OpTick? || op.OpResetAll? {
      TableStepKeepsInv(t, op);
    }
  }

  ghost predicate Guarded(t: Tunnel, ops: seq<Op>) {
    forall k :: 0 <= k < |ops| ==> Guard(Run(t, ops[..k]), ops[k])
  }

  lemma GuardedPrefix(t: Tunnel, ops: seq<Op>)
    requires Guarded(t, ops) && ops != []
    ensures Guarded(t, ops[..|ops| - 1]) && Guard(Run(t, ops[..|ops| - 1]), ops[|ops| - 1])
  {
    var front := ops[..|ops| - 1];
    forall k | 0 <= k < |front| ensures Guard(Run(t, front[..k]), front[k]) {
      assert front[..k] == ops[..k];
    }
  }

  /** Over every run, any two peers hold different addresses (IPv4 and IPv6, masks stripped), keys,
      UUIDs and emails, and none holds the server's address. */
  lemma {:induction false} RunKeepsApart(t: Tunnel, ops: seq<Op>)
    requires Inv(t) && Guarded(t, ops)
    ensures Inv(Run(t, ops))
  {
    if ops != [] {
      GuardedPrefix(t, ops);
      RunKeepsApart(t, ops[..|ops| - 1]);
      StepKeepsInv(Run(t, ops[..|ops| - 1]), ops[|ops| - 1]);
    }
  }

  /** A pool has room for the server and the peers, and one more. */
  predicate HasRoom(t: Tunnel) {
    && To4(t.server.pool4).Some? && |t.peers| + 1 < Pow2(To4(t.server.pool4).value.hostBits) - 3
    && match t.server.v6
       case V6Off => true
       case V6On(_, pool) => To16(pool).Some? && |t.peers| + 1 < Limit6(To16(pool).value.hostBits) - 2
  }

  /** In every state a new client with an unused UUID, given or generated, and an unused email is added
      while the peers and the server are fewer than the assignable addresses of each pool in use. */
  lemma AddSucceeds(t: Tunnel, req: Peer, luck: Luck)
    requires HasRoom(t) && !HasEmail(t.peers, req.email)
    requires req.uuid != "" ==> luck.parses
    requires !HasUuid(t.peers, if req.uuid == "" then luck.uuid else req.uuid)
    ensures AddClient(t, req, luck).1 == Done && |AddClient(t, req, luck).0.peers| == |t.peers| + 1
  {
    Allocate4Succeeds(t.server.pool4, t.server.ipv4, Addresses4(t.peers));
    if t.server.v6.V6On? {
      Allocate6Succeeds(t.server.v6.pool, t.server.v6.addr, Addresses6(t.peers));
    }
  }

  /** A client sent disabled is stored, and reaches the interface, enabled. */
  lemma AddedDisabledIsEnabled(t: Tunnel, req: Peer, luck: Luck)
    requires AddClient(t, req, luck).1 == Done && !req.enable && luck.works
    ensures var u := AddClient(t, req, luck).0;
            |u.peers| == |t.peers| + 1 && u.peers[|t.peers|].enable && luck.key in u.applied
  {
    var u := AddClient(t, req, luck).0;
    assert u.peers[|t.peers|].key == luck.key;
  }

  /** When the database layer rejects an update without a condition, a bulk reset empties no counter,
      and the interface does not learn of the peers it has re-enabled. */
  lemma RejectedResetEmptiesNothing(t: Tunnel, now: int, works: bool)
    ensures var (u, outcome) := ResetAllClientTraffics(t, now, false, works);
            && outcome == UpdateRejected && u.applied == t.applied && |u.peers| == |t.peers|
            && forall i :: 0 <= i < |t.peers| ==>
                 u.peers[i] == t.peers[i].(enable := t.peers[i].enable || Reenables(t.peers[i], now))
  {
  }

  /** With the usual /64 no client can be added once IPv6 is on, and none of the tunnel changes. */
  lemma WideIPv6PoolAddsNobody(t: Tunnel, req: Peer, luck: Luck)
    requires t.server.v6.V6On? && To16(t.server.v6.pool).Some? && To16(t.server.v6.pool).value.hostBits >= 63
    ensures AddClient(t, req, luck).1 != Done && AddClient(t, req, luck).0 == t
  {
    WidePoolsAreExhausted(t.server.v6.pool, t.server.v6.addr, Addresses6(t.peers));
  }

  // ---- the running interface ----------------------------------------------------------------------

  /** The interface knows the enabled peers while the server is enabled, and nobody otherwise. */
  predicate Synced(t: Tunnel) {
    t.applied == if t.server.enable then EnabledKeys(t.peers) else {}
  }

  predicate Works(op: Op) {
    match op
    case OpAdd(_, luck) => luck.works
    case OpDelete(_, works) => works
    case OpToggle(_, _, works) => works
    case OpUpdate(_, _, works) => works
    case OpSave(_, works) => works
    case OpToggleServer(_, works) => works
    case OpTick(_, _, works) => works
    case OpResetAll(_, _, works) => works
    case _ => true
  }

  /** Two operations can leave the interface behind: saving a disabled server over an enabled one
      with enabled peers does not bring the interface down, and a reset whose unconditional update is
      rejected returns after it has re-enabled peers. */
  predicate LeavesBehind(t: Tunnel, op: Op) {
    match op
    case OpSave(server, _) => t.server.enable && !server.enable && EnabledKeys(t.peers) != {}
    case OpResetAll(now, unconditional, _) =>
      t.server.enable && !unconditional
          && EnabledKeys(MapPeers(p => Reenabled(p, now), t.peers)) != EnabledKeys(t.peers)
    case _ => false
  }

  lemma SameEnabled(ps: seq<Peer>, qs: seq<Peer>)
    requires |ps| == |qs| && forall i :: 0 <= i < |ps| ==> qs[i].enable == ps[i].enable && qs[i].key == ps[i].key
    ensures EnabledKeys(ps) == EnabledKeys(qs)
  {
    forall k ensures k in EnabledKeys(ps) <==> k in EnabledKeys(qs) {
      if k in EnabledKeys(ps) {
        var i :| 0 <= i < |ps| && ps[i].enable && ps[i].key == k;
        assert qs[i].enable && qs[i].key == k;
      }
      if k in EnabledKeys(qs) {
        var i :| 0 <= i < |qs| && qs[i].enable && qs[i].key == k;
        assert ps[i].enable && ps[i].key == k;
      }
    }
  }

  /** When the passes report no change, no peer's flag has changed. */
  lemma QuietPasses(ps: seq<Peer>, c: Clocks, i: int)
    requires !NeedReconfig(ps, c) && 0 <= i < |ps|
    ensures Enforced(ps, c)[i].enable == ps[i].enable
  {
    var started := StartAll(RenewAll(ps, c.renew), c.start);
    assert started[i] == Start(Renew(ps[i], c.renew), c.start);
    assert !(Due(ps[i], c.renew) && !ps[i].enable);
    assert !(started[i].enable && Invalid(started[i], c.limit));
    EnforcedAt(ps, c, i);
  }

  lemma TickKeepsSynced(t: Tunnel, stats: Option<seq<Stat>>, c: Clocks)
    requires Synced(t)
    ensures Synced(Tick(t, stats, c, true))
  {
    if t.server.enable && stats.Some? {
      var sampled := SampleAll(t.peers, stats.value);
      SamplingKeepsIdentities(t.peers, stats.value);
      TickKeepsIdentities(t, stats, c, true);
      if !NeedReconfig(sampled, c) {
        forall i | 0 <= i < |t.peers|
          ensures Enforced(sampled, c)[i].enable == t.peers[i].enable && Enforced(sampled, c)[i].key == t.peers[i].key
        {
          QuietPasses(sampled, c, i);
          assert SameIdentity(t.peers[i], Tick(t, stats, c, true).peers[i]);
        }
        assert |Enforced(sampled, c)| == |t.peers|;
        SameEnabled(t.peers, Enforced(sampled, c));
      }
    }
  }

  lemma SyncedStepIff(t: Tunnel, op: Op)
    requires Synced(t) && Works(op)
    ensures Synced(Apply(t, op)) <==> !LeavesBehind(t, op)
  {
    match op
    case OpTick(stats, c, works) => TickKeepsSynced(t, stats, c);
    case OpReset(id) =>
      var r := IndexOfId(t.peers, id);
      if r.Some? { SameEnabled(t.peers, t.peers[r.value := Emptied(t.peers[r.value])]); }
    case _ =>
  }

  lemma {:induction false} RunKeepsSynced(t: Tunnel, ops: seq<Op>)
    requires Synced(t) && forall k :: 0 <= k < |ops| ==> Works(ops[k]) && !LeavesBehind(Run(t, ops[..k]), ops[k])
    ensures Synced(Run(t, ops))
  {
    if ops != [] {
      var front := ops[..|ops| - 1];
      forall k | 0 <= k < |front| ensures Works(front[k]) && !LeavesBehind(Run(t, front[..k]), front[k]) {
        assert front[..k] == ops[..k] && ops[k] == front[k];
      }
      RunKeepsSynced(t, front);
      SyncedStepIff(Run(t, front), ops[|ops| - 1]);
    }
  }
}
