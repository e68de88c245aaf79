/**
 What each tunnel operation leaves behind: when it is carried out, the peers, the server and the keys
 that the running interface knows. The tick is told peer by peer, from the sampled counters on.
 */
module PeerOutcomes {
  import opened Ipam
  import opened Decimal
  import opened PeerModel
  import opened PeerRuns
  import opened PeerLedger
  import Renewal

  // ---- one peer through a tick --------------------------------------------------------------------

  /** The quota is used up or the expiry has come. */
  predicate Exhausted(total: int, used: int, expiry: int, now: int) {
    (total > 0 && total <= used) || (expiry > 0 && now >= expiry)
  }

  predicate IsRenewed(p: Peer, now: int) {
    p.reset > 0 && p.expiry > 0 && p.expiry <= now
  }

  /** The first date after the clock that whole periods of `reset` days lead to. */
  predicate IsNextDate(p: Peer, now: int, expiry: int) {
    var period := p.reset * 86400000;
    period > 0 && now < expiry <= now + period && (expiry - p.expiry) % period == 0
  }

  /** The peer before and after a tick whose samples give the counters `s`: a renewal empties Up and Down
      and moves the expiry; a delayed start of an enabled peer with traffic becomes a date; and whoever is
      then exhausted is disabled. */
  predicate TickedPeer(p: Peer, q: Peer, s: Counters, c: Clocks) {
    var renewed := IsRenewed(p, c.renew);
    && SameIdentity(p, q) && q.total == p.total && q.reset == p.reset && q.allTime == s.allTime
    && q.up == (if renewed then 0 else s.up) && q.down == (if renewed then 0 else s.down)
    && (if renewed then IsNextDate(p, c.renew, q.expiry)
        else q.expiry == if p.enable && p.expiry < 0 && (s.up > 0 || s.down > 0) then c.start - p.expiry else p.expiry)
    && (q.enable <==> (p.enable || renewed) && !Exhausted(p.total, q.up + q.down, q.expiry, c.limit))
  }

  /** A pass re-enabled the peer or disabled it. */
  predicate Switched(p: Peer, q: Peer, c: Clocks) {
    (IsRenewed(p, c.renew) && !p.enable) || ((p.enable || IsRenewed(p, c.renew)) && !q.enable)
  }

  lemma OnePeerTicked(p: Peer, c: Clocks)
    ensures TickedPeer(p, Limit(Start(Renew(p, c.renew), c.start), c.limit), CountersOf(p), c)
  {
    if IsRenewed(p, c.renew) {
      Renewal.NextPeerExpiryIsLeast(p.expiry, p.reset, c.renew);
    }
    hide Renewal.NextPeerExpiry;
  }

  lemma TickedFromSampled(p: Peer, s: Peer, q: Peer, c: Clocks)
    requires s == p.(up := s.up, down := s.down, allTime := s.allTime) && TickedPeer(s, q, CountersOf(s), c)
    ensures TickedPeer(p, q, CountersOf(s), c) && (Switched(p, q, c) <==> Switched(s, q, c))
  {
  }

  /** Every peer after a tick, against the counters that the samples of its key replay. */
  lemma TickPeerIs(t: Tunnel, stats: seq<Stat>, c: Clocks, works: bool, i: nat)
    requires Inv(t) && t.server.enable && i < |t.peers|
    ensures var u := Tick(t, Some(stats), c, works);
            |u.peers| == |t.peers| && u.server == t.server && u.nextId == t.nextId
            && TickedPeer(t.peers[i], u.peers[i], Replay(CountersOf(t.peers[i]), Own(stats, t.peers[i].key)), c)
  {
    hide TickedPeer;
    var sampled := SampleAll(t.peers, stats);
    SampleAllAt(t.peers, stats, i);
    EnforcedAt(sampled, c, i);
    OnePeerTicked(sampled[i], c);
    TickedFromSampled(t.peers[i], sampled[i], Enforced(sampled, c)[i], c);
    hide SampleAll;
    hide Enforced;
    hide NeedReconfig;
  }

  /** The interface takes over the enabled peers exactly when a pass switched one, and the commands work. */
  lemma TickAppliesIff(t: Tunnel, stats: seq<Stat>, c: Clocks, works: bool)
    requires Inv(t) && t.server.enable
    ensures var u := Tick(t, Some(stats), c, works);
            |u.peers| == |t.peers|
            && u.applied == if works && exists i :: 0 <= i < |t.peers| && Switched(t.peers[i], u.peers[i], c)
                            then set q | q in u.peers && q.enable :: q.key else t.applied
  {
    hide Switched;
    var u := Tick(t, Some(stats), c, works);
    var sampled := SampleAll(t.peers, stats);
    SwitchedIffReconfig(sampled, c);
    EnabledKeysAre(u.peers);
    forall i | 0 <= i < |t.peers|
      ensures |u.peers| == |t.peers| && u.peers[i] == Enforced(sampled, c)[i]
      ensures Switched(t.peers[i], u.peers[i], c) <==> Switched(sampled[i], Enforced(sampled, c)[i], c)
    {
      SampleAllAt(t.peers, stats, i);
      EnforcedAt(sampled, c, i);
      OnePeerTicked(sampled[i], c);
      TickedFromSampled(t.peers[i], sampled[i], u.peers[i], c);
    }
    hide SampleAll;
    hide Enforced;
    hide NeedReconfig;
    hide EnabledKeys;
  }

  lemma EnabledKeysAre(ps: seq<Peer>)
    ensures EnabledKeys(ps) == set q | q in ps && q.enable :: q.key
  {
  }

  lemma SwitchedIffReconfig(ps: seq<Peer>, c: Clocks)
    ensures |Enforced(ps, c)| == |ps|
    ensures NeedReconfig(ps, c) <==> exists i :: 0 <= i < |ps| && Switched(ps[i], Enforced(ps, c)[i], c)
  {
    var started := StartAll(RenewAll(ps, c.renew), c.start);
    forall i | 0 <= i < |ps|
      ensures started[i] == Start(Renew(ps[i], c.renew), c.start)
      ensures Switched(ps[i], Enforced(ps, c)[i], c) <==>
                (Due(ps[i], c.renew) && !ps[i].enable) || (started[i].enable && Invalid(started[i], c.limit))
    {
      EnforcedAt(ps, c, i);
    }
    hide Switched;
    hide Enforced;
    hide Invalid;
    hide Due;
  }

  /** A disabled server is not looked at, nor one whose interface cannot be read. */
  lemma IdleTick(t: Tunnel, stats: Option<seq<Stat>>, c: Clocks, works: bool)
    requires !t.server.enable || stats.None?
    ensures Tick(t, stats, c, works) == t
  {
  }

  // ---- what a tick enforces -----------------------------------------------------------------------

  /** After a tick every enabled peer is within its quota and its time; at one clock value a peer is enabled
      exactly if it was renewed, or was enabled and is within both. */
  lemma TickEnforcesLimits(t: Tunnel, stats: seq<Stat>, c: Clocks, works: bool, i: nat)
    requires Inv(t) && t.server.enable && i < |t.peers|
    ensures |Tick(t, Some(stats), c, works).peers| == |t.peers|
    ensures var p, q := t.peers[i], Tick(t, Some(stats), c, works).peers[i];
            && (q.enable ==> !((q.total > 0 && q.up + q.down >= q.total) || 0 < q.expiry <= c.limit))
            && (c.renew == c.start == c.limit ==>
                  (q.enable <==>
                   (p.reset > 0 && 0 < p.expiry <= c.limit)
                   || (p.enable && !((q.total > 0 && q.up + q.down >= q.total) || 0 < q.expiry <= c.limit))))
  {
    TickPeerIs(t, stats, c, works, i);
    hide Tick;
    hide Replay;
  }

  /** So after any run that ends with a tick of an enabled server whose interface could be read. */
  lemma RunEnforcesLimits(t: Tunnel, ops: seq<Op>, i: nat)
    requires Inv(t) && Guarded(t, ops) && ops != [] && i < |Run(t, ops).peers|
    requires var op := ops[|ops| - 1]; op.OpTick? && op.stats.Some? && Run(t, ops[..|ops| - 1]).server.enable
    ensures var q := Run(t, ops).peers[i];
            q.enable ==> !((q.total > 0 && q.up + q.down >= q.total) || 0 < q.expiry <= ops[|ops| - 1].clocks.limit)
  {
    var before, op := Run(t, ops[..|ops| - 1]), ops[|ops| - 1];
    GuardedPrefix(t, ops);
    RunKeepsApart(t, ops[..|ops| - 1]);
    assert Run(t, ops) == Tick(before, op.stats, op.clocks, op.works);
    if i < |before.peers| {
      TickEnforcesLimits(before, op.stats.value, op.clocks, op.works, i);
    } else {
      TickKeepsIdentities(before, op.stats, op.clocks, op.works);
    }
    hide Tick;
    hide Run;
  }

  /** A renewed peer ends the tick enabled exactly when its new expiry is still ahead of the clock that the
      limits are checked with; at one clock value, always. */
  lemma RenewedEndsEnabledIff(t: Tunnel, stats: seq<Stat>, c: Clocks, works: bool, i: nat)
    requires Inv(t) && t.server.enable && i < |t.peers| && t.peers[i].reset > 0 && 0 < t.peers[i].expiry <= c.renew
    ensures |Tick(t, Some(stats), c, works).peers| == |t.peers|
    ensures var q := Tick(t, Some(stats), c, works).peers[i];
            && IsNextDate(t.peers[i], c.renew, q.expiry) && q.up == q.down == 0
            && (q.enable <==> q.expiry > c.limit) && (c.limit == c.renew ==> q.enable)
  {
    TickPeerIs(t, stats, c, works, i);
    hide Tick;
    hide Replay;
  }

  /** A delayed start turns into now + |d| when the peer has traffic and is not disabled by that; another
      tick does not start it again. */
  lemma DelayedStartOnce(t: Tunnel, stats: seq<Stat>, now: int, works: bool, i: nat,
                         more: seq<Stat>, later: Clocks, works': bool)
    requires Inv(t) && t.server.enable && i < |t.peers| && t.peers[i].enable && t.peers[i].expiry < 0 && now >= 0
    requires var s := Replay(CountersOf(t.peers[i]), Own(stats, t.peers[i].key)); s.up > 0 || s.down > 0
    ensures var u := Tick(t, Some(stats), Clocks(now, now, now), works);
            && |u.peers| == |t.peers| && u.peers[i].expiry == now - t.peers[i].expiry > now
            && (u.peers[i].enable <==>
                !(u.peers[i].total > 0 && u.peers[i].up + u.peers[i].down >= u.peers[i].total))
    ensures var u := Tick(t, Some(stats), Clocks(now, now, now), works);
            var v := Tick(u, Some(more), later, works');
            |v.peers| == |t.peers| && (v.peers[i].expiry == u.peers[i].expiry
                                       || (u.peers[i].reset > 0 && u.peers[i].expiry <= later.renew))
  {
    hide Tick;
    hide Replay;
    var c := Clocks(now, now, now);
    TickPeerIs(t, stats, c, works, i);
    StepKeepsInv(t, OpTick(Some(stats), c, works));
    TickPeerIs(Tick(t, Some(stats), c, works), more, later, works', i);
  }

  /** A renewal does not renew the quota of a peer that stays in the interface: its next sample brings the
      cumulative counters back, and unless it is due again the tick disables it exactly when they reach the
      quota. */
  lemma RenewedQuotaReturns(t: Tunnel, first: seq<Stat>, now: int, works: bool,
                            stats: seq<Stat>, tx: int, rx: int, later: int, works': bool, i: nat)
    requires Inv(t) && t.server.enable && i < |t.peers| && t.peers[i].reset > 0 && 0 < t.peers[i].expiry <= now
    requires Own(stats, t.peers[i].key) == [Sampled(tx, rx)]
    ensures var u := Tick(t, Some(first), Clocks(now, now, now), works);
            && |u.peers| == |t.peers| && u.peers[i].enable && u.peers[i].up == u.peers[i].down == 0
            && var v := Tick(u, Some(stats), Clocks(later, later, later), works');
               |v.peers| == |t.peers| &&
               (later < u.peers[i].expiry ==>
                  && v.peers[i].up == tx && v.peers[i].down == rx
                  && (v.peers[i].enable <==> !(t.peers[i].total > 0 && tx + rx >= t.peers[i].total)))
  {
    hide Tick;
    var c, d := Clocks(now, now, now), Clocks(later, later, later);
    TickPeerIs(t, first, c, works, i);
    StepKeepsInv(t, OpTick(Some(first), c, works));
    var u := Tick(t, Some(first), c, works);
    TickPeerIs(u, stats, d, works', i);
    ReplayOne(CountersOf(u.peers[i]), Sampled(tx, rx));
    hide Replay;
  }

  lemma ReplayOne(c: Counters, e: Event)
    ensures Replay(c, [e]) == Happen(c, e)
  {
    OneMore(c, [], e);
    assert [] + [e] == [e];
  }

  /** At one clock value the interface is reconfigured exactly when some peer's flag changes. */
  lemma ReconfigIffChanged(t: Tunnel, stats: seq<Stat>, now: int)
    requires Inv(t) && t.server.enable
    ensures var u := Tick(t, Some(stats), Clocks(now, now, now), true);
            |u.peers| == |t.peers|
            && u.applied == if exists i :: 0 <= i < |t.peers| && u.peers[i].enable != t.peers[i].enable
                            then set q | q in u.peers && q.enable :: q.key else t.applied
  {
    var c := Clocks(now, now, now);
    var u := Tick(t, Some(stats), c, true);
    TickAppliesIff(t, stats, c, true);
    hide Tick;
    forall i | 0 <= i < |t.peers|
      ensures Switched(t.peers[i], u.peers[i], c) <==> u.peers[i].enable != t.peers[i].enable
    {
      TickPeerIs(t, stats, c, true, i);
    }
    hide Switched;
  }

  // ---- clients ------------------------------------------------------------------------------------

  /** A client is added if its UUID, where one is given, parses, nobody has it, both pools in use have an
      address, and nobody has its email. Otherwise nothing changes. */
  lemma AddAcceptedIff(t: Tunnel, req: Peer, luck: Luck)
    ensures var uuid := if req.uuid == "" then luck.uuid else req.uuid;
            AddClient(t, req, luck).1 == Done <==>
              && (req.uuid == "" || luck.parses) && (forall p :: p in t.peers ==> p.uuid != uuid)
              && Allocate4(t.server.pool4, t.server.ipv4, Addresses4(t.peers)).Ok?
              && (t.server.v6.V6On? ==> Allocate6(t.server.v6.pool, t.server.v6.addr, Addresses6(t.peers)).Ok?)
              && forall p :: p in t.peers ==> p.email != req.email
    ensures AddClient(t, req, luck).1 != Done ==> AddClient(t, req, luck).0 == t
  {
    hide Allocate4;
    hide Allocate6;
  }

  /** One peer more, with what the request says, but enabled, with a new id, its keys and its addresses. */
  lemma AddedIs(t: Tunnel, req: Peer, luck: Luck)
    requires AddClient(t, req, luck).1 == Done
    ensures var u := AddClient(t, req, luck).0;
            && Allocate4(t.server.pool4, t.server.ipv4, Addresses4(t.peers)).Ok?
            && (t.server.v6.V6On? ==> Allocate6(t.server.v6.pool, t.server.v6.addr, Addresses6(t.peers)).Ok?)
            && u.peers == t.peers + [Peer(
                 t.nextId, if req.uuid == "" then luck.uuid else req.uuid, req.email, luck.key, true,
                 Allocate4(t.server.pool4, t.server.ipv4, Addresses4(t.peers)).value,
                 if t.server.v6.V6On?
                 then Some(Allocate6(t.server.v6.pool, t.server.v6.addr, Addresses6(t.peers)).value) else req.ipv6,
                 req.up, req.down, req.total, req.allTime, req.expiry, req.reset)]
            && u.nextId == t.nextId + 1 && u.server == Server(true, t.server.ipv4, t.server.pool4, t.server.v6)
            && u.applied == if luck.works then set q | q in u.peers && q.enable :: q.key else t.applied
  {
    EnabledKeysAre(AddClient(t, req, luck).0.peers);
    hide Allocate4;
    hide Allocate6;
    hide EnabledKeys;
  }

  /** What a change of the peers does to the interface: it takes over the enabled ones while the server is
      enabled and the commands work. */
  predicate FollowsPeers(t: Tunnel, u: Tunnel, works: bool) {
    && u.server == t.server && u.nextId == t.nextId
    && u.applied == if t.server.enable && works then set q | q in u.peers && q.enable :: q.key else t.applied
  }

  /** The one peer with the id goes. */
  lemma DeleteIs(t: Tunnel, id: nat, works: bool)
    requires Inv(t)
    ensures var (u, outcome) := DeleteClient(t, id, works);
            && (outcome == Done <==> exists p :: p in t.peers && p.id == id)
            && (outcome != Done ==> u == t)
            && (outcome == Done ==> FollowsPeers(t, u, works) && |u.peers| == |t.peers| - 1
                                    && forall p :: p in u.peers <==> p in t.peers && p.id != id)
  {
    hide Inv;
    hide EnabledKeys;
    var r := IndexOfId(t.peers, id);
    EnabledKeysAre(DeleteClient(t, id, works).0.peers);
    if r.Some? {
      assert t.peers[r.value] in t.peers;
      OthersStay(t, r.value);
    }
  }

  lemma OthersStay(t: Tunnel, i: nat)
    requires Inv(t) && i < |t.peers|
    ensures forall p :: p in t.peers[..i] + t.peers[i + 1..] <==> p in t.peers && p.id != t.peers[i].id
  {
    forall j | 0 <= j < |t.peers| && j != i ensures t.peers[j].id != t.peers[i].id { IdsDiffer(t, i, j); }
    hide Inv;
  }

  lemma IdsDiffer(t: Tunnel, i: nat, j: nat)
    requires Inv(t) && i < |t.peers| && j < |t.peers| && i != j
    ensures t.peers[i].id != t.peers[j].id
  {
    ApartEither(t.peers);
    assert !Clash(t.peers[i], t.peers[j]);
  }

  /** The peers but one are those of before. */
  predicate OnlyChanges(t: Tunnel, u: Tunnel, id: nat) {
    |u.peers| == |t.peers| && forall i :: 0 <= i < |t.peers| && t.peers[i].id != id ==> u.peers[i] == t.peers[i]
  }

  lemma ToggleIs(t: Tunnel, id: nat, enable: bool, works: bool, i: nat)
    requires Inv(t) && i < |t.peers|
    ensures var (u, outcome) := ToggleClient(t, id, enable, works);
            && (outcome == Done <==> exists p :: p in t.peers && p.id == id) && (outcome != Done ==> u == t)
            && OnlyChanges(t, u, id) && (outcome == Done ==> FollowsPeers(t, u, works))
            && (t.peers[i].id == id ==> u.peers[i] == t.peers[i].(enable := enable))
  {
    var r := IndexOfId(t.peers, id);
    EnabledKeysAre(ToggleClient(t, id, enable, works).0.peers);
    if r.Some? && r.value != i { IdsDiffer(t, r.value, i); }
    if r.Some? { assert t.peers[r.value] in t.peers; }
    hide EnabledKeys;
  }

  /** An update stores what is sent, but for the id and the UUID, unless another peer has the email. */
  lemma UpdateIs(t: Tunnel, id: nat, p: Peer, works: bool, i: nat)
    requires Inv(t) && i < |t.peers|
    ensures var (u, outcome) := UpdateClient(t, id, p, works);
            && (outcome == Done <==> (exists x :: x in t.peers && x.id == id)
                                     && forall x :: x in t.peers && x.id != id ==> x.email != p.email)
            && (outcome != Done ==> u == t)
            && OnlyChanges(t, u, id) && (outcome == Done ==> FollowsPeers(t, u, works))
            && (outcome == Done && t.peers[i].id == id ==>
                  u.peers[i] == Peer(id, t.peers[i].uuid, p.email, p.key, p.enable, p.ipv4, p.ipv6,
                                     p.up, p.down, p.total, p.allTime, p.expiry, p.reset))
  {
    var r := IndexOfId(t.peers, id);
    EnabledKeysAre(UpdateClient(t, id, p, works).0.peers);
    if r.Some? {
      assert t.peers[r.value] in t.peers;
      forall j | 0 <= j < |t.peers| && j != r.value ensures t.peers[j].id != id { IdsDiffer(t, r.value, j); }
    }
    hide EnabledKeys;
  }

  lemma ResetIs(t: Tunnel, id: nat, i: nat)
    requires Inv(t) && i < |t.peers|
    ensures var u := ResetClientTraffic(t, id);
            && OnlyChanges(t, u, id) && u.server == t.server && u.nextId == t.nextId && u.applied == t.applied
            && (t.peers[i].id == id ==> u.peers[i] == t.peers[i].(up := 0, down := 0))
  {
    var r := IndexOfId(t.peers, id);
    if r.Some? && r.value != i { IdsDiffer(t, r.value, i); }
  }

  /** A bulk reset enables the disabled peers that have a quota and time left, and then, if the database
      layer lets it, empties Up and Down of all. */
  lemma ResetAllIs(t: Tunnel, now: int, unconditional: bool, works: bool, i: nat)
    requires i < |t.peers|
    ensures var (u, outcome) := ResetAllClientTraffics(t, now, unconditional, works);
            && (outcome == Done <==> unconditional) && |u.peers| == |t.peers|
            && (if unconditional then FollowsPeers(t, u, works) else u == t.(peers := u.peers))
            && var p := t.peers[i];
               u.peers[i] == p.(enable := p.enable || (p.total > 0 && (p.expiry == 0 || p.expiry > now)),
                                up := if unconditional then 0 else p.up, down := if unconditional then 0 else p.down)
  {
    EnabledKeysAre(ResetAllClientTraffics(t, now, unconditional, works).0.peers);
    hide EnabledKeys;
  }

  // ---- the server ---------------------------------------------------------------------------------

  /** Saving or enabling a server makes the interface take over the enabled peers; disabling it and
      deleting all peers brings an interface that was up down, saving a disabled one does not. */
  lemma ServerStepsAre(t: Tunnel, server: Server, enable: bool, works: bool)
    ensures var u := SaveServer(t, server, works);
            && u.server == server && u.peers == t.peers && u.nextId == t.nextId
            && u.applied == if server.enable && works then set q | q in t.peers && q.enable :: q.key else t.applied
    ensures var u := ToggleServer(t, enable, works);
            && u.server == Server(enable, t.server.ipv4, t.server.pool4, t.server.v6)
            && u.peers == t.peers && u.nextId == t.nextId
            && u.applied == if !enable then {} else if works then set q | q in t.peers && q.enable :: q.key
                            else t.applied
    ensures var u := DeleteAllClients(t);
            && u.server == Server(false, t.server.ipv4, t.server.pool4, t.server.v6)
            && u.peers == [] && u.nextId == t.nextId && u.applied == if t.server.enable then {} else t.applied
  {
    EnabledKeysAre(t.peers);
    hide EnabledKeys;
  }

  /** The defaults are a server with the first address of its own /24 pool. */
  lemma DefaultsAre(t: Tunnel, wg: bool)
    ensures var u := ResetToDefaults(t, wg);
            && !u.server.enable && u.server.v6 == t.server.v6 && u.peers == [] && u.nextId == t.nextId
            && u.applied == (if t.server.enable then {} else t.applied)
            && To4(u.server.pool4).Some? && To4(u.server.pool4).value.hostBits == 8
            && StripMask(u.server.ipv4) == Dotted(To4(u.server.pool4).value.base + 1)
            && To4(u.server.pool4).value.base == if wg then 10 * 0x1_00_00_00 + 77 * 0x1_00_00 + 77 * 0x1_00
                                                 else 10 * 0x1_00_00_00 + 66 * 0x1_00_00 + 66 * 0x1_00
  {
    DefaultAddress(wg);
    hide StripMask;
    hide Dotted;
  }

  lemma DefaultAddress(wg: bool)
    ensures StripMask(if wg then WG_ADDRESS else AWG_ADDRESS)
            == Dotted(if wg then 10 * 0x1_00_00_00 + 77 * 0x1_00_00 + 77 * 0x1_00 + 1
                      else 10 * 0x1_00_00_00 + 66 * 0x1_00_00 + 66 * 0x1_00 + 1)
  {
    hide StripMask;
    hide Dotted;
    hide Dec;
    SmallNumbers();
    if wg {
      DottedOf(10, 77, 77, 1);
      assert '/' !in "10.77.77.1";
      StripMaskCuts("10.77.77.1", "24");
      assert "10.77.77.1" + "/" + "24" == WG_ADDRESS;
      assert "10" + "." + "77" + "." + "77" + "." + "1" == "10.77.77.1";
    } else {
      DottedOf(10, 66, 66, 1);
      assert '/' !in "10.66.66.1";
      StripMaskCuts("10.66.66.1", "24");
      assert "10.66.66.1" + "/" + "24" == AWG_ADDRESS;
      assert "10" + "." + "66" + "." + "66" + "." + "1" == "10.66.66.1";
    }
  }

  lemma SmallNumbers()
    ensures Dec(10) == "10" && Dec(77) == "77" && Dec(66) == "66" && Dec(1) == "1"
  {
    assert Dec(7) == "7" && Dec(6) == "6" && Dec(0) == "0";
  }

  lemma LastByte(x: nat, y: nat, d: nat, n: nat)
    requires x == 256 * y + d && d < 256
    ensures BigEndian(x, n + 1) == BigEndian(y, n) + [d] && |BigEndian(y, 0)| == 0
  {
    assert x / 256 == y && x % 256 == d;
  }

  lemma JoinOfFour(a: nat, b: nat, c: nat, d: nat)
    ensures Join([a, b, c, d]) == Dec(a) + "." + (Dec(b) + "." + (Dec(c) + "." + Dec(d)))
  {
    hide Dec;
    assert [a, b, c, d][1..] == [b, c, d] && [b, c, d][1..] == [c, d] && [c, d][1..] == [d];
    assert Join([d]) == Dec(d);
    assert Join([c, d]) == Dec(c) + "." + Join([d]);
    assert Join([b, c, d]) == Dec(b) + "." + Join([c, d]);
  }

  lemma JoinFour(a: string, b: string, c: string, d: string)
    ensures a + "." + (b + "." + (c + "." + d)) == a + "." + b + "." + c + "." + d
  {
  }

  lemma FourBytes(x: nat, y: nat, z: nat, a: nat, b: nat, c: nat, d: nat)
    requires x == 256 * y + d && y == 256 * z + c && z == 256 * a + b
    requires a < 256 && b < 256 && c < 256 && d < 256
    ensures BigEndian(x, 4) == [a, b, c, d]
  {
    hide BigEndian;
    LastByte(x, y, d, 3);
    LastByte(y, z, c, 2);
    LastByte(z, a, b, 1);
    LastByte(a, 0, a, 0);
    assert [] + [a] + [b] + [c] + [d] == [a, b, c, d];
  }

  lemma DottedOf(a: nat, b: nat, c: nat, d: nat)
    requires a < 256 && b < 256 && c < 256 && d < 256
    ensures Dotted(a * 0x1_00_00_00 + b * 0x1_00_00 + c * 0x1_00 + d)
            == Dec(a) + "." + Dec(b) + "." + Dec(c) + "." + Dec(d)
  {
    var x, y, z := a * 0x1_00_00_00 + b * 0x1_00_00 + c * 0x1_00 + d, a * 0x1_00_00 + b * 0x1_00 + c, a * 0x1_00 + b;
    hide BigEndian;
    hide Join;
    hide Dec;
    FourBytes(x, y, z, a, b, c, d);
    JoinFour(Dec(a), Dec(b), Dec(c), Dec(d));
    JoinOfFour(a, b, c, d);
  }
}
