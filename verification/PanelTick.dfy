/**
 Agreement with the core through the traffic tick, through whole inbounds and through restarts.
 */
module PanelTick {
  import opened PanelModel
  import opened PanelSteps
  import opened PanelConsistency
  import opened PanelAgreement
  import opened Renewal

  /** A client's user does not depend on its expiry. */
  predicate SameUser(c: Client, d: Client) {
    d == c.(expiry := d.expiry)
  }

  /** Lists that differ in expiries only. */
  ghost predicate SameUsers(a: seq<Client>, b: seq<Client>) {
    |a| == |b| && forall i :: 0 <= i < |a| ==> SameUser(a[i], b[i])
  }

  /** Rescheduling leaves each inbound's flags, tag, protocol and users alone. */
  ghost predicate SameTable(t: Table, r: Table) {
    r.Keys == t.Keys && forall id :: id in t ==>
      r[id].tag == t[id].tag && r[id].protocol == t[id].protocol && r[id].enable == t[id].enable
      && SameUsers(t[id].clients, r[id].clients)
  }

  lemma RescheduledSameTable(t: Table, next: map<string, int>)
    ensures SameTable(t, Rescheduled(t, next))
  {
  }

  lemma SameTableTags(t: Table, r: Table)
    requires SameTable(t, r)
    ensures EnabledTags(r) == EnabledTags(t)
    ensures DistinctTags(t) ==> DistinctTags(r)
  {
    forall id | id in t ensures InConfig(r[id]) == InConfig(t[id]) {}
  }

  /** Clients that differ in expiries only, and are disabled by the same rows, load as the same users. */
  lemma SameListUsers(s: State, r: State, id: int)
    requires id in s.inbounds && id in r.inbounds
    requires r.inbounds[id].protocol == s.inbounds[id].protocol
               && SameUsers(s.inbounds[id].clients, r.inbounds[id].clients)
    requires Depleted(r.rows, id) == Depleted(s.rows, id)
    ensures ActiveUsers(r, id) == ActiveUsers(s, id)
  {
    hide Depleted;
    UsersWithin(s, r, id);
    UsersWithin(r, s, id);
  }

  lemma UsersWithin(s: State, r: State, id: int)
    requires id in s.inbounds && id in r.inbounds
    requires r.inbounds[id].protocol == s.inbounds[id].protocol
               && SameUsers(s.inbounds[id].clients, r.inbounds[id].clients)
    requires Depleted(r.rows, id) == Depleted(s.rows, id)
    ensures ActiveUsers(r, id) <= ActiveUsers(s, id)
  {
    hide Depleted;
    var a, b, p := s.inbounds[id].clients, r.inbounds[id].clients, s.inbounds[id].protocol;
    forall u | u in ActiveUsers(r, id) ensures u in ActiveUsers(s, id) {
      var c :| c in b && Active(r, id, c) && u == LoadedUser(p, c);
      var i :| 0 <= i < |b| && b[i] == c;
      assert SameUser(a[i], c) && a[i] in a && Active(s, id, a[i]) && u == LoadedUser(p, a[i]);
    }
  }

  lemma AgreesByUsers(s: State, id: int)
    requires id in s.inbounds
    ensures AgreesAt(s, id) <==> (Served(s.inbounds[id]) ==>
              s.inbounds[id].tag in s.live && s.live[s.inbounds[id].tag] == ActiveUsers(s, id))
  {
    EmitIsActiveUsers(s, id);
  }

  // ---- counting traffic ---------------------------------------------------------------------------

  lemma SameTableAgrees(s: State, r: State)
    requires Agrees(s) && SameTable(s.inbounds, r.inbounds) && r.live == s.live
    requires forall id :: Depleted(r.rows, id) == Depleted(s.rows, id)
    ensures Agrees(r)
  {
    SameTableTags(s.inbounds, r.inbounds);
    forall id | id in r.inbounds ensures AgreesAt(r, id) {
      AgreesByUsers(s, id);
      AgreesByUsers(r, id);
      SameListUsers(s, r, id);
      assert AgreesAt(s, id);
    }
  }

  lemma ClientTrafficAgrees(s: State, reports: seq<Report>, now: int)
    requires Agrees(s)
    ensures Agrees(AddClientTraffic(s, reports, now))
  {
    var r := AddClientTraffic(s, reports, now);
    RescheduledSameTable(s.inbounds, StartExpiries(s.rows, reports, now));
    forall id ensures Depleted(r.rows, id) == Depleted(s.rows, id) {}
    SameTableAgrees(s, r);
  }

  // ---- AutoRenewClients ---------------------------------------------------------------------------

  /** Every client added back is one that a configuration would give to the core as it is, or its
      inbound is not served. */
  ghost predicate RenewedBelong(s: State, now: int) {
    forall id, c :: Readded(s, now, id, c) && Served(s.inbounds[id]) ==>
                      c.enable && PlainFlow(s.inbounds[id].protocol, c)
  }

  lemma RenewedDepleted(s: State, now: int, a: Answers, id: int, c: Client)
    requires Consistent(s) && id in s.inbounds && c in s.inbounds[id].clients
    ensures c.email in Depleted(AutoRenewClients(s, now, a).rows, id)
            <==> c.email in Depleted(s.rows, id) && !Readded(s, now, id, c)
  {
    var r := AutoRenewClients(s, now, a);
    if c.email != "" {
      RowOfClient(s, id, c);
    } else {
      assert !Owned(s.inbounds, "");
    }
  }

  /** The active users after renewal: those from before and every re-added client that is enabled. */
  lemma RenewedUsers(s: State, now: int, a: Answers, id: int)
    requires Consistent(s) && id in s.inbounds
    ensures ActiveUsers(AutoRenewClients(s, now, a), id) == ActiveUsers(s, id) +
            set c | c in s.inbounds[id].clients && Readded(s, now, id, c)
                && c.enable :: LoadedUser(s.inbounds[id].protocol, c)
  {
    hide Agreed;
    hide DistinctTags;
    var r := AutoRenewClients(s, now, a);
    var mid := s.(rows := r.rows);
    RescheduledSameTable(s.inbounds, RenewExpiries(s.rows, now));
    SameListUsers(mid, r, id);
    var more := set c | c in s.inbounds[id].clients && Readded(s, now, id, c) && c.enable ::
      LoadedUser(s.inbounds[id].protocol, c);
    forall c | c in s.inbounds[id].clients
      ensures Active(mid, id, c) <==> Active(s, id, c) || (Readded(s, now, id, c) && c.enable)
    {
      RenewedDepleted(s, now, a, id, c);
    }
    assert ActiveUsers(mid, id) == ActiveUsers(s, id) + more;
  }

  /** The call that adds the client back is made and takes effect. */
  predicate Reaches(s: State, a: Answers, id: int, c: Client)
    requires id in s.inbounds
  {
    s.inbounds[id].protocol.HasRawApi() && a(AddUserCall(s.inbounds[id].tag, c.email)) != Fails
  }

  /** The users that renewal adds under the tag of an inbound are of that inbound. */
  lemma RenewedLive(s: State, now: int, a: Answers, id: int)
    requires Consistent(s) && id in s.inbounds
    ensures ReaddedUsers(s, now, a, s.inbounds[id].tag) ==
            set c | c in s.inbounds[id].clients && Readded(s, now, id, c) && Reaches(s, a, id, c)
              :: ApiUser(s.inbounds[id].protocol, c)
  {
    var tag, p := s.inbounds[id].tag, s.inbounds[id].protocol;
    var mine := set c | c in s.inbounds[id].clients && Readded(s, now, id, c) && Reaches(s, a, id, c) :: ApiUser(p, c);
    forall u | u in ReaddedUsers(s, now, a, tag) ensures u in mine {
      var d, c :| d in s.inbounds && c in s.inbounds[d].clients && Readded(s, now, d, c) && s.inbounds[d].tag == tag
        && s.inbounds[d].protocol.HasRawApi() && a(AddUserCall(tag, c.email)) != Fails
            && u == ApiUser(s.inbounds[d].protocol, c);
      assert d == id;
    }
    forall u | u in mine ensures u in ReaddedUsers(s, now, a, tag) {
      var c :| c in s.inbounds[id].clients && Readded(s, now, id, c) && Reaches(s, a, id, c) && u == ApiUser(p, c);
    }
  }

  /** Before renewal a client that is to be added back is not active, and it is the only one with its
      email. */
  lemma ReaddedIsOwn(s: State, now: int, id: int, c: Client)
    requires Consistent(s) && id in s.inbounds && Readded(s, now, id, c)
    ensures !Active(s, id, c) && forall d :: d in s.inbounds[id].clients && d.email == c.email ==> d == c
  {
    assert c.email != "" by { assert !Owned(s.inbounds, ""); }
    RowOfClient(s, id, c);
    forall d | d in s.inbounds[id].clients && d.email == c.email ensures d == c {
      EmailNamesClient(s.inbounds, id, c, id, d);
    }
  }

  /** The right clients have reached the core, with the right users: those enabled in the settings and
      no others, none of them with the flow that a configuration rewrites. */
  predicate RightOnesReach(s: State, now: int, a: Answers, id: int)
    requires id in s.inbounds
  {
    forall c :: c in s.inbounds[id].clients && Readded(s, now, id, c) ==>
      (c.enable <==> Reaches(s, a, id, c)) && (Reaches(s, a, id, c) ==> PlainFlow(s.inbounds[id].protocol, c))
  }

  lemma RenewedUsersMatchIff(s: State, now: int, a: Answers, id: int)
    requires Consistent(s) && id in s.inbounds
    ensures ActiveUsers(s, id) + ReaddedUsers(s, now, a, s.inbounds[id].tag)
              == ActiveUsers(AutoRenewClients(s, now, a), id)
            <==> RightOnesReach(s, now, a, id)
  {
    hide Consistent;
    hide AutoRenewClients;
    hide ReaddedUsers;
    hide ActiveUsers;
    hide ApiUser;
    hide LoadedUser;
    hide Reaches;
    hide Readded;
    hide PlainFlow;
    RenewedUsers(s, now, a, id);
    RenewedLive(s, now, a, id);
    var p, clients := s.inbounds[id].protocol, s.inbounds[id].clients;
    if RightOnesReach(s, now, a, id) {
      SameUsersReach(s, now, a, id);
    } else {
      var c :| c in clients && Readded(s, now, id, c)
        && !((c.enable <==> Reaches(s, a, id, c)) && (Reaches(s, a, id, c) ==> PlainFlow(p, c)));
      if c.enable != Reaches(s, a, id, c) {
        OnlyOneSide(s, now, a, id, c);
      } else {
        assert ApiUser(p, c) in ReaddedUsers(s, now, a, s.inbounds[id].tag);
        RenewedProtocol(s, now, a, id);
        RawUserIsInactive(AutoRenewClients(s, now, a), id, c);
      }
    }
  }

  lemma SameUsersReach(s: State, now: int, a: Answers, id: int)
    requires id in s.inbounds && RightOnesReach(s, now, a, id)
    ensures (set c | c in s.inbounds[id].clients && Readded(s, now, id, c) && c.enable
              :: LoadedUser(s.inbounds[id].protocol, c))
            == (set c | c in s.inbounds[id].clients && Readded(s, now, id, c) && Reaches(s, a, id, c)
                :: ApiUser(s.inbounds[id].protocol, c))
  {
    hide ApiUser;
    hide LoadedUser;
    hide Reaches;
    hide Readded;
    hide PlainFlow;
    var p := s.inbounds[id].protocol;
    forall c | c in s.inbounds[id].clients && Readded(s, now, id, c) && c.enable
      ensures ApiUser(p, c) == LoadedUser(p, c)
    {
      ApiUserIsConfigUser(p, c);
    }
  }

  lemma RenewedProtocol(s: State, now: int, a: Answers, id: int)
    requires id in s.inbounds
    ensures var r := AutoRenewClients(s, now, a); id in r.inbounds && r.inbounds[id].protocol == s.inbounds[id].protocol
  {
  }

  /** An added user is told from the others by its email. */
  lemma OnlyOneSide(s: State, now: int, a: Answers, id: int, c: Client)
    requires Consistent(s) && id in s.inbounds && Readded(s, now, id, c) && c.enable != Reaches(s, a, id, c)
    ensures var p, clients := s.inbounds[id].protocol, s.inbounds[id].clients;
            var u := if c.enable then LoadedUser(p, c) else ApiUser(p, c);
            var enabled := set d | d in clients && Readded(s, now, id, d) && d.enable :: LoadedUser(p, d);
            var reached := set d | d in clients && Readded(s, now, id, d) && Reaches(s, a, id, d) :: ApiUser(p, d);
            u !in ActiveUsers(s, id) && (u in enabled <==> c.enable) && (u in reached <==> Reaches(s, a, id, c))
  {
    ReaddedIsOwn(s, now, id, c);
    hide Consistent;
    hide Readded;
    hide Reaches;
  }

  lemma RenewAgreesAtIff(s: State, now: int, a: Answers, id: int)
    requires Consistent(s) && Agrees(s) && id in s.inbounds
    ensures AgreesAt(AutoRenewClients(s, now, a), id) <==> (Served(s.inbounds[id]) ==> RightOnesReach(s, now, a, id))
  {
    RescheduledSameTable(s.inbounds, RenewExpiries(s.rows, now));
    SameTableTags(s.inbounds, Rescheduled(s.inbounds, RenewExpiries(s.rows, now)));
    AgreesByUsers(s, id);
    AgreesByUsers(AutoRenewClients(s, now, a), id);
    assert AgreesAt(s, id);
    RenewedUsersMatchIff(s, now, a, id);
  }

  /** Whatever the core answers, renewal leaves it in agreement exactly when of the clients to be added
      back to inbounds in service, those enabled in the settings reach it, with a flow that is not
      rewritten, and the others do not. */
  lemma RenewAgreesIff(s: State, now: int, a: Answers)
    requires Consistent(s) && Agrees(s)
    ensures Agrees(AutoRenewClients(s, now, a))
            <==> forall id :: id in s.inbounds && Served(s.inbounds[id]) ==> RightOnesReach(s, now, a, id)
  {
    var r := AutoRenewClients(s, now, a);
    RescheduledSameTable(s.inbounds, RenewExpiries(s.rows, now));
    SameTableTags(s.inbounds, r.inbounds);
    forall id | id in s.inbounds
      ensures AgreesAt(r, id) <==> (Served(s.inbounds[id]) ==> RightOnesReach(s, now, a, id))
    {
      RenewAgreesAtIff(s, now, a, id);
    }
  }

  /** A call for this client fails for certain: the core does not run its inbound. */
  predicate OutOfService(s: State, now: int, id: int, c: Client) {
    Readded(s, now, id, c) && s.inbounds[id].protocol.HasUserApi() && !InConfig(s.inbounds[id])
  }

  /** What can be told before the calls. A renewal that completes is safe if it adds back no client
      disabled in the settings or of a flow that is rewritten, or if a call is bound to fail and raises
      the flag. One that panics is
      safe only if it had nothing to add but disabled Shadowsocks clients. */
  ghost predicate RenewIsSafe(s: State, now: int) {
    if RenewalPanics(s, now)
    then forall id, c :: Readded(s, now, id, c) && Served(s.inbounds[id]) ==>
           s.inbounds[id].protocol.Shadowsocks? && !c.enable
    else RenewedBelong(s, now) || exists id, c :: OutOfService(s, now, id, c)
  }

  /** The flag is up or the core agrees, for every way the calls may turn out. */
  ghost predicate RenewAlwaysEndsWell(s: State, now: int) {
    forall a: Answers :: AutoRenewClients(s, now, a).restart || Agrees(AutoRenewClients(s, now, a))
  }

  lemma OutOfServiceRaises(s: State, now: int, a: Answers)
    requires DistinctTags(s.inbounds) && Agrees(s)
    ensures (exists id, c :: OutOfService(s, now, id, c)) ==> RenewNeedsRestart(s, now, a)
  {
    if id, c :| OutOfService(s, now, id, c) {
      TagIsLive(s, id);
      assert !AddUserReply(s.live, s.inbounds[id].protocol, s.inbounds[id].tag,
                           a(AddUserCall(s.inbounds[id].tag, c.email)));
    }
  }

  lemma SafeRenewEndsWell(s: State, now: int, a: Answers)
    requires Consistent(s) && Agrees(s) && RenewIsSafe(s, now)
    ensures AutoRenewClients(s, now, a).restart || Agrees(AutoRenewClients(s, now, a))
  {
    hide Agreed;
    hide Agrees;
    hide PlainFlow;
    RenewAgreesIff(s, now, a);
    if !AutoRenewClients(s, now, a).restart && !RenewalPanics(s, now) {
      assert !RenewNeedsRestart(s, now, a);
      OutOfServiceRaises(s, now, a);
      forall id, c | Readded(s, now, id, c) && Served(s.inbounds[id]) ensures Reaches(s, a, id, c) {
        assert AddUserReply(s.live, s.inbounds[id].protocol, s.inbounds[id].tag,
                            a(AddUserCall(s.inbounds[id].tag, c.email)));
      }
    }
    hide AutoRenewClients;
  }

  lemma UnsafeRenewEndsBadly(s: State, now: int) returns (a: Answers)
    requires Consistent(s) && Agrees(s) && !s.restart && !RenewIsSafe(s, now)
    ensures !AutoRenewClients(s, now, a).restart && !Agrees(AutoRenewClients(s, now, a))
  {
    hide Agreed;
    if RenewalPanics(s, now) {
      var id, c :| Readded(s, now, id, c) && Served(s.inbounds[id])
          && (s.inbounds[id].protocol.Shadowsocks? ==> c.enable);
      a := if c.enable then (k => Fails) else (k => Works);
      assert !RightOnesReach(s, now, a, id);
    } else {
      var id, c :| Readded(s, now, id, c) && Served(s.inbounds[id])
          && !(c.enable && PlainFlow(s.inbounds[id].protocol, c));
      a := k => Works;
      assert !RightOnesReach(s, now, a, id);
      forall d, x | Readded(s, now, d, x)
        ensures AddUserReply(s.live, s.inbounds[d].protocol, s.inbounds[d].tag,
                             a(AddUserCall(s.inbounds[d].tag, x.email)))
      {
        TagIsLive(s, d);
        assert !OutOfService(s, now, d, x);
      }
    }
    RenewAgreesIff(s, now, a);
  }

  /** Renewal ends well for every way the calls may turn out exactly when it is safe to begin with. */
  lemma RenewIsSafeIff(s: State, now: int)
    requires Consistent(s) && Agrees(s) && !s.restart
    ensures RenewAlwaysEndsWell(s, now) <==> RenewIsSafe(s, now)
  {
    if RenewIsSafe(s, now) {
      forall a: Answers ensures AutoRenewClients(s, now, a).restart || Agrees(AutoRenewClients(s, now, a)) {
        SafeRenewEndsWell(s, now, a);
      }
    } else {
      var a := UnsafeRenewEndsBadly(s, now);
    }
  }

  // ---- disabling ----------------------------------------------------------------------------------

  lemma DisabledUsers(s: State, now: int, a: Answers, id: int)
    requires Consistent(s) && id in s.inbounds
    ensures ActiveUsers(DisableInvalidClients(s, now, a), id)
            == set u | u in ActiveUsers(s, id) && !Struck(s, now, s.inbounds[id].tag, u.email)
  {
    var r := DisableInvalidClients(s, now, a);
    var tag := s.inbounds[id].tag;
    forall c | c in s.inbounds[id].clients
      ensures Active(r, id, c) <==> Active(s, id, c) && !Struck(s, now, tag, c.email)
    {
      if c.email != "" {
        RowOfClient(s, id, c);
      } else {
        assert !Owned(s.inbounds, "");
      }
    }
  }

  lemma DisableAgrees(s: State, now: int, a: Answers)
    requires Consistent(s) && Agrees(s)
    ensures var r := DisableInvalidClients(s, now, a); r.restart || Agrees(r)
  {
    var r := DisableInvalidClients(s, now, a);
    if !r.restart {
      forall id | id in s.inbounds ensures AgreesAt(r, id) {
        AgreesByUsers(s, id);
        AgreesByUsers(r, id);
        assert AgreesAt(s, id);
        DisabledUsers(s, now, a, id);
        if Served(s.inbounds[id]) {
          var tag := s.inbounds[id].tag;
          forall u | u in s.live[tag] && Struck(s, now, tag, u.email) ensures a(RemoveUserCall(tag, u.email)) == Works {
            assert RemoveUserReply(s.live, tag, a(RemoveUserCall(tag, u.email)));
          }
          assert r.live[tag] == set u | u in s.live[tag] && !Struck(s, now, tag, u.email);
        }
      }
    }
  }

  lemma DisableInboundsAgrees(s: State, now: int, a: Answers)
    requires DistinctTags(s.inbounds) && Agrees(s)
    ensures var r := DisableInvalidInbounds(s, now, a); r.restart || Agrees(r)
  {
    var r := DisableInvalidInbounds(s, now, a);
    if !r.restart {
      forall id | id in s.inbounds && InvalidInbound(s.inbounds[id], now)
        ensures a(DelInboundCall(s.inbounds[id].tag)) == Works
      {
        assert DelInboundReply(s.live, s.inbounds[id].tag, a(DelInboundCall(s.inbounds[id].tag)));
      }
      forall id | id in s.inbounds
        ensures InConfig(r.inbounds[id]) <==> InConfig(s.inbounds[id]) && !InvalidInbound(s.inbounds[id], now)
      {
      }
      var gone := set id | id in s.inbounds && InvalidInbound(s.inbounds[id], now) :: s.inbounds[id].tag;
      assert r.live == s.live - gone;
      assert r.live.Keys == EnabledTags(r.inbounds);
      forall id | id in s.inbounds ensures AgreesAt(r, id) {
        assert AgreesAt(s, id);
      }
    }
  }

  /** The guard of a tick: it completes, and adds back no client disabled in the settings or of a flow
      that a configuration rewrites. */
  ghost predicate TickReachesCore(s: State, ins: seq<InboundReport>, reports: seq<Report>, t: Clock) {
    !TickPanics(s, ins, reports, t) && RenewedBelong(BeforeRenewal(s, ins, reports, t.start), t.renew)
  }

  lemma BeforeRenewalAgrees(s: State, ins: seq<InboundReport>, reports: seq<Report>, now: int)
    requires Consistent(s) && Agrees(s)
    ensures var r := BeforeRenewal(s, ins, reports, now);
            Consistent(r) && Agrees(r) && r.restart == s.restart
  {
    hide Agreed;
    hide DistinctTags;
    hide EnabledTags;
    var s1 := s.(inbounds := AddInboundTraffic(s.inbounds, ins));
    SameTableAgrees(s, s1);
    SameTableTags(s.inbounds, s1.inbounds);
    SameShapeKeepsAgreed(s.inbounds, s.rows, s1.inbounds, s1.rows);
    ClientTrafficAgrees(s1, reports, now);
    ClientTrafficKeepsConsistent(s1, reports, now);
  }

  lemma TickAgrees(s: State, ins: seq<InboundReport>, reports: seq<Report>, t: Clock, a: Answers)
    requires Consistent(s) && Agrees(s) && TickReachesCore(s, ins, reports, t)
    ensures var r := AddTraffic(s, ins, reports, t, a); r.restart || Agrees(r)
  {
    BeforeRenewalAgrees(s, ins, reports, t.start);
    LaterTickAgrees(BeforeRenewal(s, ins, reports, t.start), t, a);
  }

  lemma LaterTickAgrees(s: State, t: Clock, a: Answers)
    requires Consistent(s) && Agrees(s)
    requires !RenewalPanics(s, t.renew) && RenewedBelong(s, t.renew)
    ensures var r := DisableInvalidInbounds(
            DisableInvalidClients(AutoRenewClients(s, t.renew, a), t.clients, a), t.inbounds, a);
            r.restart || Agrees(r)
  {
    var s3 := AutoRenewClients(s, t.renew, a);
    var s4 := DisableInvalidClients(s3, t.clients, a);
    if !s4.restart {
      SafeRenewEndsWell(s, t.renew, a);
      RenewKeepsConsistent(s, t.renew, a);
      RescheduledSameTable(s.inbounds, RenewExpiries(s.rows, t.renew));
      SameTableTags(s.inbounds, s3.inbounds);
      DisableAgrees(s3, t.clients, a);
      DisableInboundsAgrees(s4, t.inbounds, a);
    }
  }

  // ---- ResetAllClientTraffics ---------------------------------------------------------------------

  /** A client that a bulk reset gives back to the configuration. */
  predicate Restored(s: State, id: int, d: int, c: Client) {
    d in s.inbounds && Served(s.inbounds[d]) && c in s.inbounds[d].clients && c.enable
    && c.email in Depleted(s.rows, d) && InScope(s.rows[c.email], id)
  }

  lemma ResetAllUsers(s: State, id: int, byController: bool, d: int)
    requires d in s.inbounds
    ensures ActiveUsers(ResetAllClientTraffics(s, id, byController), d) == ActiveUsers(s, d) +
            set c | c in s.inbounds[d].clients && c.enable && c.email in Depleted(s.rows, d)
                && InScope(s.rows[c.email], id)
            :: LoadedUser(s.inbounds[d].protocol, c)
  {
    var r := ResetAllClientTraffics(s, id, byController);
    forall c | c in s.inbounds[d].clients
      ensures Active(r, d, c) <==>
                Active(s, d, c) || (c.enable && c.email in Depleted(s.rows, d) && InScope(s.rows[c.email], id))
    {
    }
  }

  lemma RestoredIsMissing(s: State, d: int, c: Client)
    requires Consistent(s) && d in s.inbounds && c in s.inbounds[d].clients && c.email in Depleted(s.rows, d)
    ensures LoadedUser(s.inbounds[d].protocol, c) !in ActiveUsers(s, d)
  {
    assert c.email != "" by { assert !Owned(s.inbounds, ""); }
    var p := s.inbounds[d].protocol;
    if x :| x in s.inbounds[d].clients && Active(s, d, x) && LoadedUser(p, x) == LoadedUser(p, c) {
      EmailNamesClient(s.inbounds, d, x, d, c);
      assert false;
    }
  }

  lemma ResetAllAgreesAtIff(s: State, id: int, d: int)
    requires Consistent(s) && AgreesAt(s, d) && d in s.inbounds
    ensures AgreesAt(ResetAllClientTraffics(s, id, false), d) <==> forall c :: !Restored(s, id, d, c)
  {
    var r := ResetAllClientTraffics(s, id, false);
    AgreesByUsers(s, d);
    AgreesByUsers(r, d);
    ResetAllUsers(s, id, false, d);
    if c :| Restored(s, id, d, c) {
      RestoredIsMissing(s, d, c);
      assert LoadedUser(s.inbounds[d].protocol, c) in ActiveUsers(r, d);
    } else if Served(s.inbounds[d]) {
      forall c | c in s.inbounds[d].clients && c.enable && c.email in Depleted(s.rows, d)
        ensures !InScope(s.rows[c.email], id)
      {
        assert !Restored(s, id, d, c);
      }
      assert ActiveUsers(r, d) == ActiveUsers(s, d);
    }
  }

  /** The periodic job leaves the core in agreement exactly when it restores nobody. */
  lemma ResetAllAgreesIff(s: State, id: int)
    requires Consistent(s) && Agrees(s)
    ensures Agrees(ResetAllClientTraffics(s, id, false)) <==> forall d, c :: !Restored(s, id, d, c)
  {
    var r := ResetAllClientTraffics(s, id, false);
    assert r.inbounds == s.inbounds && r.live == s.live;
    forall d | d in s.inbounds ensures AgreesAt(r, d) <==> forall c :: !Restored(s, id, d, c) {
      assert AgreesAt(s, d);
      ResetAllAgreesAtIff(s, id, d);
    }
  }

  // ---- whole inbounds -----------------------------------------------------------------------------

  lemma DelInboundAgrees(s: State, id: int, a: Answers)
    requires Consistent(s) && Agrees(s) && DelInbound(s, id, a).Done?
    ensures var r := DelInbound(s, id, a).state; r.restart || Agrees(r)
  {
    var r := DelInbound(s, id, a).state;
    if !r.restart {
      TagIsLive(s, id);
      assert r.live == if InConfig(s.inbounds[id]) then s.live - {s.inbounds[id].tag} else s.live;
      forall d | d in r.inbounds ensures AgreesAt(r, d) {
        assert AgreesAt(s, d);
        assert Depleted(r.rows, d) == Depleted(s.rows, d);
        UntouchedAgrees(s, r, d);
      }
      TagsWithout(s.inbounds, id);
      hide AgreesAt;
      hide Consistent;
      hide EnabledTags;
    }
  }

  lemma TagsWithout(t: Table, id: int)
    requires DistinctTags(t) && id in t
    ensures EnabledTags(t - {id}) == EnabledTags(t) - (if InConfig(t[id]) then {t[id].tag} else {})
  {
    forall d | d in t && d != id ensures d in t - {id} && t[d].tag != t[id].tag {}
  }

  /** A client that the configuration of a new inbound keeps. Clients without an email share a row,
      which takes its flag from the first of them. */
  predicate KeptAtFirst(ib: Inbound, d: Client) {
    d in ib.clients && d.enable && FirstWith(ib.clients, d.email).enable
  }

  /** The settings reach the core unfiltered and with their flows, so every client must already have
      the user that a configuration makes of it, or of another one that it keeps. */
  predicate RawIsFiltered(ib: Inbound) {
    Served(ib) ==> forall c :: c in ib.clients ==> IsKept(ib, c)
  }

  predicate IsKept(ib: Inbound, c: Client) {
    exists d :: d in ib.clients && KeptAtFirst(ib, d) && LoadedUser(ib.protocol, d) == ApiUser(ib.protocol, c)
  }

  lemma RowIsContained(s: State, email: string)
    requires Consistent(s)
    ensures email in s.rows ==> Contains(AllEmails(s.inbounds), email)
  {
    if email in s.rows {
      var c := ClientOfRow(s, email);
      assert email in AllEmails(s.inbounds);
    }
  }

  lemma NewClientHasNoRow(s: State, ib: Inbound, c: Client)
    requires Consistent(s) && !DuplicateEmail(s.inbounds, ib.clients) && c in ib.clients
    ensures c.email !in s.rows
    ensures c.email != "" ==> FirstWith(ib.clients, c.email) == c
  {
    var i :| 0 <= i < |ib.clients| && ib.clients[i] == c;
    if c.email == "" {
      assert !Owned(s.inbounds, "");
    } else {
      assert !EmailClash(s.inbounds, ib.clients, i);
      RowIsContained(s, c.email);
      var d := FirstWith(ib.clients, c.email);
      var j :| 0 <= j < |ib.clients| && ib.clients[j] == d;
      if i != j {
        NewEmailsAreDistinct(s.inbounds, ib.clients, i, j);
      }
    }
  }

  lemma NewInboundRows(s: State, id: int, ib: Inbound, c: Client)
    requires Consistent(s) && id !in s.inbounds && !DuplicateEmail(s.inbounds, ib.clients) && c in ib.clients
    ensures c.email in Depleted(AddAllRows(s.rows, id, ib.clients), id) <==> !FirstWith(ib.clients, c.email).enable
  {
    NewClientHasNoRow(s, ib, c);
    assert c.email in RequestEmails(ib.clients);
  }

  lemma NewInboundAgreesHereIff(s: State, id: int, ib: Inbound, portTaken: bool, a: Answers)
    requires Consistent(s) && Agrees(s) && id !in s.inbounds && ib.protocol.RunsInXray()
    requires AddInbound(s, id, ib, portTaken, a).Done? && !AddInbound(s, id, ib, portTaken, a).state.restart
    ensures AgreesAt(AddInbound(s, id, ib, portTaken, a).state, id) <==> RawIsFiltered(ib)
  {
    var r := AddInbound(s, id, ib, portTaken, a).state;
    if Served(ib) {
      EmitIsActiveUsers(r, id);
      assert r.live[ib.tag] == RawUsers(ib);
      forall c | c in ib.clients ensures Active(r, id, c) <==> KeptAtFirst(ib, c) {
        NewInboundRows(s, id, ib, c);
      }
      hide AddInbound;
      hide Consistent;
      hide Active;
      hide KeptAtFirst;
      RawIsActiveIff(r, id, ib);
    }
  }

  lemma RawIsActiveIff(r: State, id: int, ib: Inbound)
    requires id in r.inbounds && r.inbounds[id] == ib
    requires forall c :: c in ib.clients ==> (Active(r, id, c) <==> KeptAtFirst(ib, c))
    ensures RawUsers(ib) == ActiveUsers(r, id) <==> forall c :: c in ib.clients ==> IsKept(ib, c)
  {
    hide Active;
    hide KeptAtFirst;
    hide IsKept;
    hide ApiUser;
    hide LoadedUser;
    hide ActiveUsers;
    forall c | c in ib.clients ensures ApiUser(ib.protocol, c) in ActiveUsers(r, id) <==> IsKept(ib, c) {
      KeptIsActive(r, id, ib, c);
    }
    if c :| c in ib.clients && !IsKept(ib, c) {
      assert ApiUser(ib.protocol, c) in RawUsers(ib);
    } else {
      AllRawAreActive(r, id);
    }
  }

  lemma KeptIsActive(r: State, id: int, ib: Inbound, c: Client)
    requires id in r.inbounds && r.inbounds[id] == ib && c in ib.clients
    requires forall d :: d in ib.clients ==> (Active(r, id, d) <==> KeptAtFirst(ib, d))
    ensures ApiUser(ib.protocol, c) in ActiveUsers(r, id) <==> IsKept(ib, c)
  {
    hide Active;
    hide KeptAtFirst;
    hide ApiUser;
    hide LoadedUser;
  }

  lemma AllRawAreActive(r: State, id: int)
    requires id in r.inbounds
    requires forall c :: c in r.inbounds[id].clients ==> ApiUser(r.inbounds[id].protocol, c) in ActiveUsers(r, id)
    ensures RawUsers(r.inbounds[id]) == ActiveUsers(r, id)
  {
    var p, clients := r.inbounds[id].protocol, r.inbounds[id].clients;
    forall c | c in clients ensures LoadedUser(p, c) == ApiUser(p, c) {
      if !PlainFlow(p, c) { RawUserIsInactive(r, id, c); }
      ApiUserIsConfigUser(p, c);
    }
    hide ApiUser;
    hide LoadedUser;
    hide Active;
  }

  /** With no empty email among the clients, that is that none is disabled or has a flow that a
      configuration rewrites. */
  lemma FilteredIffEnabled(s: State, ib: Inbound)
    requires Consistent(s) && !DuplicateEmail(s.inbounds, ib.clients) && forall c :: c in ib.clients ==> c.email != ""
    ensures RawIsFiltered(ib) <==>
            (Served(ib) ==> forall c :: c in ib.clients ==> c.enable && PlainFlow(ib.protocol, c))
  {
    forall c | c in ib.clients ensures IsKept(ib, c) <==> c.enable && PlainFlow(ib.protocol, c) {
      NewClientHasNoRow(s, ib, c);
      ApiUserIsConfigUser(ib.protocol, c);
      if c.enable && PlainFlow(ib.protocol, c) { assert KeptAtFirst(ib, c); }
      if d :| d in ib.clients && KeptAtFirst(ib, d) && LoadedUser(ib.protocol, d) == ApiUser(ib.protocol, c) {
        NewClientHasNoRow(s, ib, d);
      }
    }
  }

  /** Adding an inbound agrees with the core exactly when each of its clients has the user of one that
      a configuration keeps. */
  lemma AddInboundAgreesIff(s: State, id: int, ib: Inbound, portTaken: bool, a: Answers)
    requires Consistent(s) && Agrees(s) && id !in s.inbounds && ib.protocol.RunsInXray()
    requires AddInbound(s, id, ib, portTaken, a).Done? && !AddInbound(s, id, ib, portTaken, a).state.restart
    ensures Agrees(AddInbound(s, id, ib, portTaken, a).state) <==> RawIsFiltered(ib)
  {
    var r := AddInbound(s, id, ib, portTaken, a).state;
    NewInboundAgreesHereIff(s, id, ib, portTaken, a);
    assert EnabledTags(r.inbounds) == EnabledTags(s.inbounds) + (if ib.enable then {ib.tag} else {}) by {
      forall d | d in s.inbounds ensures r.inbounds[d] == s.inbounds[d] {}
      assert r.inbounds[id] == ib;
    }
    forall d | d in s.inbounds ensures AgreesAt(r, d) {
      assert AgreesAt(s, d);
      NewInboundFrame(s, id, ib, portTaken, a, d);
      UntouchedAgrees(s, r, d);
    }
  }

  lemma NewInboundFrame(s: State, id: int, ib: Inbound, portTaken: bool, a: Answers, d: int)
    requires id !in s.inbounds && ib.protocol.RunsInXray() && AddInbound(s, id, ib, portTaken, a).Done?
               && d in s.inbounds
    ensures Depleted(AddInbound(s, id, ib, portTaken, a).state.rows, d) == Depleted(s.rows, d)
  {
    var r := AddInbound(s, id, ib, portTaken, a).state;
    forall e | e in r.rows && r.rows[e].inboundId == d ensures e in s.rows && r.rows[e] == s.rows[e] {}
  }

  // ---- RestartXray --------------------------------------------------------------------------------

  /** A core that has just loaded the generated configuration agrees with it. */
  lemma LoadAgrees(s: State, r: State)
    requires DistinctTags(s.inbounds) && r.inbounds == s.inbounds && r.rows == s.rows && r.live == Load(ConfigOf(s))
    ensures Agrees(r)
  {
    LoadedTags(s);
    forall id | id in r.inbounds ensures AgreesAt(r, id) {
      if Served(r.inbounds[id]) {
        LoadedUsers(s, id);
      }
    }
  }

  lemma LoadedTags(s: State)
    requires DistinctTags(s.inbounds)
    ensures Load(ConfigOf(s)).Keys == EnabledTags(s.inbounds)
  {
    var cfg := ConfigOf(s);
    forall id | id in cfg ensures cfg[id].tag == s.inbounds[id].tag && InConfig(s.inbounds[id]) {}
    forall tag | tag in EnabledTags(s.inbounds) ensures tag in Load(cfg) {
      var id :| id in s.inbounds && InConfig(s.inbounds[id]) && s.inbounds[id].tag == tag;
      assert id in cfg;
    }
    forall tag | tag in Load(cfg) ensures tag in EnabledTags(s.inbounds) {}
  }

  lemma LoadedUsers(s: State, id: int)
    requires DistinctTags(s.inbounds) && id in s.inbounds && InConfig(s.inbounds[id])
    ensures var live, tag := Load(ConfigOf(s)), s.inbounds[id].tag; tag in live && live[tag] == Emit(s, id)
  {
    EmitIsGenerated(s, id);
    var cfg, tag := ConfigOf(s), s.inbounds[id].tag;
    assert cfg[id].tag == tag;
    forall d | d in cfg && cfg[d].tag == tag ensures d == id {
      assert cfg[d].tag == s.inbounds[d].tag;
    }
    assert UsersWith(cfg, tag) == UsersOf(cfg[id]);
  }

  lemma ForcedRestartAgrees(s: State, t: Clock, a: Answers)
    requires Consistent(s) && !TickPanics(s, [], [], t)
    ensures Agrees(RestartXray(s, true, t, a))
  {
    var ticked := AddTraffic(s, [], [], t, a).(restart := s.restart);
    TickKeepsConsistent(s, [], [], t, a);
    LoadAgrees(ticked, RestartXray(s, true, t, a));
  }

  /** A panic leaves both tables saved: every due row is renewed and enabled, so that the same clock
      value finds nothing to add back any more. Nothing is disabled, no flag is raised, and the core
      gains at most users whose calls came before. */
  lemma PanickedTick(s: State, ins: seq<InboundReport>, reports: seq<Report>, t: Clock, a: Answers)
    requires TickPanics(s, ins, reports, t)
    ensures var b, r := BeforeRenewal(s, ins, reports, t.start), AddTraffic(s, ins, reports, t, a);
            && r.restart == s.restart && r.rows.Keys == b.rows.Keys && r.live.Keys == s.live.Keys
            && (forall e :: e in b.rows ==> r.rows[e].enable == (b.rows[e].enable || Due(b.rows[e], t.renew)))
            && (forall tag :: tag in s.live ==> r.live[tag] == s.live[tag] + ReaddedUsers(b, t.renew, a, tag))
            && !RenewalPanics(r, t.renew)
  {
    var b := BeforeRenewal(s, ins, reports, t.start);
    assert b.restart == s.restart && b.live == s.live;
    assert AddTraffic(s, ins, reports, t, a) == AutoRenewClients(b, t.renew, a);
    hide AddTraffic;
    hide BeforeRenewal;
    RenewedAreNotDue(b, t.renew, a);
    hide ReaddedUsers;
  }

  /** Renewal leaves nobody who would be added again. */
  lemma RenewedAreNotDue(s: State, now: int, a: Answers)
    ensures !RenewalPanics(AutoRenewClients(s, now, a), now)
  {
  }

  /** So does a restart: it is the next one that succeeds. */
  lemma RestartAfterPanic(s: State, t: Clock, later: Clock, a: Answers, b: Answers)
    requires Consistent(s) && TickPanics(s, [], [], t) && later.renew == t.renew
    ensures var r := RestartXray(s, true, t, a); !TickPanics(r, [], [], later) && Agrees(RestartXray(r, true, later, b))
  {
    var r := RestartXray(s, true, t, a);
    PanickedTick(s, [], [], t, a);
    TickKeepsConsistent(s, [], [], t, a);
    QuietTraffic(r, later.start);
    ForcedRestartAgrees(r, later, b);
  }

  lemma NoReschedule(t: Table, next: map<string, int>)
    requires next == map[]
    ensures Rescheduled(t, next) == t
  {
    forall id | id in t ensures WithExpiries(t[id].clients, next) == t[id].clients {}
  }

  /** Without reports nothing is credited and nobody starts. */
  lemma QuietTraffic(s: State, now: int)
    ensures BeforeRenewal(s, [], [], now) == s
  {
    forall id | id in s.inbounds ensures AddInboundTraffic(s.inbounds, [])[id] == s.inbounds[id] {}
    assert AddInboundTraffic(s.inbounds, []) == s.inbounds;
    assert StartExpiries(s.rows, [], now) == map[];
    NoReschedule(s.inbounds, map[]);
    forall e | e in s.rows ensures Credit(s.rows[e], FirstReport([], e)) == s.rows[e] {}
    assert AddClientTraffic(s, [], now).rows == s.rows;
  }

  /** Where RestartXray(false) finds the core once the tick inside GetXrayConfig has run. */
  function BeforeReload(s: State, t: Clock, a: Answers): State {
    AddTraffic(s.(restart := false), [], [], t, a)
  }

  /** The 30-second job with the flag up: if its tick completes, agreement holds afterwards exactly
      when the regenerated configuration differs from the one last started, or the core agreed anyway;
      if it panics, exactly when the core agrees without a restart. The flag itself, and any failure
      during the job's own tick, is forgotten. */
  lemma JobAgreesIff(s: State, t: Clock, a: Answers)
    requires Consistent(s) && s.restart
    ensures var r := CheckRestartJob(s, t, a);
            !r.restart && (Agrees(r) <==>
              Agrees(BeforeReload(s, t, a))
                  || (!TickPanics(s, [], [], t) && ConfigOf(BeforeReload(s, t, a)) != s.started))
  {
    hide RenewalPanics;
    hide Agreed;
    var quiet := s.(restart := false);
    var before := BeforeReload(s, t, a);
    TickKeepsConsistent(quiet, [], [], t, a);
    var ticked := before.(restart := false);
    assert ConfigOf(ticked) == ConfigOf(before);
    var r := CheckRestartJob(s, t, a);
    assert before.started == s.started;
    PanicsIgnoresFlag(s, quiet, t);
    if !TickPanics(s, [], [], t) && ConfigOf(before) != s.started {
      LoadAgrees(ticked, r);
    } else {
      assert r == ticked;
      AgreesIgnoresFlag(before, r);
    }
  }

  lemma PanicsIgnoresFlag(s: State, r: State, t: Clock)
    requires r == s.(restart := r.restart)
    ensures TickPanics(r, [], [], t) <==> TickPanics(s, [], [], t)
  {
  }

  lemma AgreesIgnoresFlag(s: State, r: State)
    requires r == s.(restart := r.restart)
    ensures Agrees(r) <==> Agrees(s)
  {
    forall id | id in s.inbounds ensures AgreesAt(r, id) <==> AgreesAt(s, id) {
      assert Emit(r, id) == Emit(s, id);
    }
    forall id ensures AgreesAt(r, id) <==> AgreesAt(s, id) {}
  }
}
