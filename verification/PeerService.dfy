/**
 The tunnel service with its rows updated in place, as web/service/awg_service.go and
 web/service/wg_service.go do; each operation takes the stored tunnel to the state that PeerModel
 specifies. Answers of the outside world (clocks, keys, counters, whether commands work) are
 parameters.
 */
module PeerService {
  import opened Ipam
  import opened PeerModel
  import Renewal

  class TunnelService {
    var server: Server
    var peers: seq<Peer>
    var nextId: nat
    var applied: set<string>

    function St(): Tunnel
      reads this
    {
      Tunnel(server, peers, nextId, applied)
    }

    constructor (s: Server)
      ensures St() == Tunnel(s, [], 1, {})
    {
      server, peers, nextId, applied := s, [], 1, {};
    }

    /** The generated configuration has one section for each enabled client. */
    method ApplyServerConfig(works: bool)
      modifies this`applied
      ensures St() == Reapplied(old(St()), works)
    {
      var config: set<string> := {};
      for i := 0 to |peers|
        invariant config == EnabledKeys(peers[..i])
        invariant applied == old(applied)
      {
        assert peers[..i + 1] == peers[..i] + [peers[i]];
        AddedKey(peers[..i], peers[i]);
        if peers[i].enable {
          config := config + {peers[i].key};
        }
      }
      assert peers[..|peers|] == peers;
      if works {
        applied := config;
      }
    }

    method AddClient(client: Peer, luck: Luck) returns (outcome: Outcome)
      modifies this
      ensures (St(), outcome) == PeerModel.AddClient(old(St()), client, luck)
    {
      hide Allocate4;
      hide Allocated6;
      hide EnabledKeys;
      var uuid := client.uuid;
      if uuid == "" {
        uuid := luck.uuid;
      } else if !luck.parses {
        return NotAUuid;
      }
      if HasUuid(peers, uuid) {
        return UuidTaken;
      }
      var ipv4, ipv6 := AllocateAddresses(client.ipv6);
      if ipv4.Err? {
        return NotAllocated(ipv4.error);
      }
      if ipv6.Err? {
        return NotAllocated(ipv6.error);
      }
      if HasEmail(peers, client.email) {
        return EmailTaken;
      }
      var row := client.(uuid := uuid, key := luck.key, ipv4 := ipv4.value, ipv6 := ipv6.value);
      peers := peers + [row.(id := nextId, enable := true)];
      nextId := nextId + 1;
      if !server.enable {
        server := server.(enable := true);
      }
      ApplyServerConfig(luck.works);
      return Done;
    }

    method AllocateAddresses(given: Option<nat>) returns (ipv4: Result<string>, ipv6: Result<Option<nat>>)
      ensures ipv4 == Allocate4(server.pool4, server.ipv4, Addresses4(peers))
      ensures ipv6 == Allocated6(server, peers, given)
    {
      var usedIPv4, usedIPv6 := UsedAddresses();
      ipv4 := AllocateIPv4(server.pool4, server.ipv4, usedIPv4);
      ipv6 := Ok(given);
      if server.v6.V6On? {
        var r := AllocateIPv6(server.v6.pool, server.v6.addr, usedIPv6);
        ipv6 := if r.Err? then Err(r.error) else Ok(Some(r.value));
      }
    }

    method UsedAddresses() returns (usedIPv4: seq<string>, usedIPv6: seq<Option<nat>>)
      ensures usedIPv4 == Addresses4(peers) && usedIPv6 == Addresses6(peers)
    {
      usedIPv4, usedIPv6 := [], [];
      for i := 0 to |peers|
        invariant |usedIPv4| == |usedIPv6| == i
        invariant forall k :: 0 <= k < i ==> usedIPv4[k] == peers[k].ipv4 && usedIPv6[k] == peers[k].ipv6
      {
        usedIPv4 := usedIPv4 + [peers[i].ipv4];
        usedIPv6 := usedIPv6 + [peers[i].ipv6];
      }
    }

    method DeleteClient(id: nat, works: bool) returns (outcome: Outcome)
      modifies this
      ensures (St(), outcome) == PeerModel.DeleteClient(old(St()), id, works)
    {
      var i := IndexOfId(peers, id);
      if i.None? {
        return NoSuchPeer;
      }
      peers := peers[..i.value] + peers[i.value + 1..];
      if server.enable {
        ApplyServerConfig(works);
      }
      return Done;
    }

    method ToggleClient(id: nat, enable: bool, works: bool) returns (outcome: Outcome)
      modifies this
      ensures (St(), outcome) == PeerModel.ToggleClient(old(St()), id, enable, works)
    {
      var i := IndexOfId(peers, id);
      if i.None? {
        return NoSuchPeer;
      }
      peers := peers[i.value := peers[i.value].(enable := enable)];
      if server.enable {
        ApplyServerConfig(works);
      }
      return Done;
    }

    method UpdateClient(id: nat, client: Peer, works: bool) returns (outcome: Outcome)
      modifies this
      ensures (St(), outcome) == PeerModel.UpdateClient(old(St()), id, client, works)
    {
      var i := IndexOfId(peers, id);
      if i.None? {
        return NoSuchPeer;
      }
      if exists j :: 0 <= j < |peers| && j != i.value && peers[j].email == client.email {
        return EmailTaken;
      }
      peers := peers[i.value := client.(id := id, uuid := peers[i.value].uuid)];
      if server.enable {
        ApplyServerConfig(works);
      }
      return Done;
    }

    method ResetClientTraffic(id: nat)
      modifies this`peers
      ensures St() == PeerModel.ResetClientTraffic(old(St()), id)
    {
      var i := IndexOfId(peers, id);
      if i.Some? {
        peers := peers[i.value := peers[i.value].(up := 0, down := 0)];
      }
    }

    method SaveServer(s: Server, works: bool)
      modifies this
      ensures St() == PeerModel.SaveServer(old(St()), s, works)
    {
      server := s;
      if server.enable {
        ApplyServerConfig(works);
      }
    }

    method ToggleServer(enable: bool, works: bool)
      modifies this
      ensures St() == PeerModel.ToggleServer(old(St()), enable, works)
    {
      server := server.(enable := enable);
      if enable {
        ApplyServerConfig(works);
        return;
      }
      applied := {};
    }

    method DeleteAllClients()
      modifies this
      ensures St() == PeerModel.DeleteAllClients(old(St()))
    {
      if server.enable {
        applied := {};
      }
      peers := [];
      server := server.(enable := false);
    }

    method ResetToDefaults(wg: bool)
      modifies this
      ensures St() == PeerModel.ResetToDefaults(old(St()), wg)
    {
      if server.enable {
        applied := {};
      }
      peers := [];
      server := server.(enable := false,
                        ipv4 := if wg then "10.77.77.1/24" else "10.66.66.1/24", pool4 := DefaultPool(wg));
    }

    /** The counters of every report, then the three passes. */
    method UpdateTrafficStats(stats: Option<seq<Stat>>, c: Clocks, works: bool)
      modifies this
      ensures St() == Tick(old(St()), stats, c, works)
    {
      if !server.enable {
        return;
      }
      if stats.None? {
        return;
      }
      RecordStats(stats.value);
      var needReconfig := AutoRenewClients(c.renew);
      AdjustDelayedStart(c.start);
      var disabled := DisableInvalidClients(c.limit);
      if disabled {
        needReconfig := true;
      }
      if needReconfig {
        ApplyServerConfig(works);
      }
    }

    method RecordStats(stats: seq<Stat>)
      modifies this`peers
      ensures peers == SampleAll(old(peers), stats)
    {
      for k := 0 to |stats|
        invariant peers == SampleAll(old(peers), stats[..k])
      {
        assert stats[..k + 1][..k] == stats[..k];
        RecordStat(stats[k]);
      }
      assert stats[..|stats|] == stats;
    }

    method RecordStat(peer: Stat)
      modifies this`peers
      ensures peers == SampleOne(old(peers), peer)
    {
      var i := IndexOfKey(peers, peer.key);
      if i.None? {
        return;
      }
      var client := peers[i.value];
      var newUp, newDown := peer.tx, peer.rx;
      if newUp != client.up || newDown != client.down {
        var allTimeDelta := 0;
        if newUp > client.up {
          allTimeDelta := allTimeDelta + newUp - client.up;
        }
        if newDown > client.down {
          allTimeDelta := allTimeDelta + newDown - client.down;
        }
        peers := peers[i.value := client.(up := newUp, down := newDown, allTime := client.allTime + allTimeDelta)];
      }
    }

    method AutoRenewClients(now: int) returns (needReconfig: bool)
      modifies this`peers
      ensures peers == RenewAll(old(peers), now)
      ensures needReconfig == SomeReenabled(old(peers), now)
    {
      ghost var was := peers;
      needReconfig := false;
      for i := 0 to |peers|
        invariant |peers| == |was| && peers[i..] == was[i..]
        invariant forall k :: 0 <= k < i ==> peers[k] == Renew(was[k], now)
        invariant needReconfig == exists k :: 0 <= k < i && Due(was[k], now) && !was[k].enable
      {
        var c := peers[i];
        assert c == was[i..][0];
        if c.reset > 0 && c.expiry > 0 && c.expiry <= now {
          var newExpiry := Renewal.RenewPeer(c.expiry, c.reset, now);
          peers := peers[i := c.(expiry := newExpiry, up := 0, down := 0, enable := true)];
          if !c.enable {
            needReconfig := true;
          }
        }
        assert peers[i + 1..] == was[i..][1..];
      }
      assert peers == RenewAll(was, now);
    }

    method AdjustDelayedStart(now: int)
      modifies this`peers
      ensures peers == StartAll(old(peers), now)
    {
      ghost var was := peers;
      for i := 0 to |peers|
        invariant |peers| == |was| && peers[i..] == was[i..]
        invariant forall k :: 0 <= k < i ==> peers[k] == Start(was[k], now)
      {
        var c := peers[i];
        assert c == was[i..][0];
        if c.enable && c.expiry < 0 && (c.up > 0 || c.down > 0) {
          peers := peers[i := c.(expiry := now + -c.expiry)];
        }
        assert peers[i + 1..] == was[i..][1..];
      }
      assert peers == StartAll(was, now);
    }

    method DisableInvalidClients(now: int) returns (disabled: bool)
      modifies this`peers
      ensures peers == LimitAll(old(peers), now)
      ensures disabled == SomeDisabled(old(peers), now)
    {
      ghost var was := peers;
      var rowsAffected := 0;
      for i := 0 to |peers|
        invariant |peers| == |was| && peers[i..] == was[i..]
        invariant forall k :: 0 <= k < i ==> peers[k] == Limit(was[k], now)
        invariant rowsAffected >= 0 && (rowsAffected > 0 <==>
                    exists k :: 0 <= k < i && was[k].enable && Invalid(was[k], now))
      {
        var c := peers[i];
        assert c == was[i..][0];
        if c.enable && ((c.total > 0 && c.up + c.down >= c.total) || (c.expiry > 0 && c.expiry <= now)) {
          peers := peers[i := c.(enable := false)];
          rowsAffected := rowsAffected + 1;
        }
        assert peers[i + 1..] == was[i..][1..];
      }
      assert peers == LimitAll(was, now);
      disabled := rowsAffected > 0;
    }

    method ResetAllClientTraffics(now: int, unconditional: bool, works: bool) returns (outcome: Outcome)
      modifies this
      ensures (St(), outcome) == PeerModel.ResetAllClientTraffics(old(St()), now, unconditional, works)
    {
      peers := MapPeers(p => Reenabled(p, now), peers);
      if !unconditional {
        return UpdateRejected;
      }
      peers := MapPeers(p => Emptied(p), peers);
      if server.enable {
        ApplyServerConfig(works);
      }
      return Done;
    }
  }

  lemma AddedKey(ps: seq<Peer>, p: Peer)
    ensures EnabledKeys(ps + [p]) == EnabledKeys(ps) + if p.enable then {p.key} else {}
  {
    var qs := ps + [p];
    assert qs[|ps|] == p;
    forall k ensures k in EnabledKeys(qs) <==> k in EnabledKeys(ps) || (p.enable && k == p.key) {
      if k in EnabledKeys(ps) {
        var i :| 0 <= i < |ps| && ps[i].enable && ps[i].key == k;
        assert qs[i].enable && qs[i].key == k;
      }
      if k in EnabledKeys(qs) {
        var i :| 0 <= i < |qs| && qs[i].enable && qs[i].key == k;
        assert i < |ps| ==> ps[i].enable && ps[i].key == k;
      }
    }
  }
}
