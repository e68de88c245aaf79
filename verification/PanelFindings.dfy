/**
 What a tick leaves in the rows, and a run in which the restart job forgets a lost user.
 */
module PanelFindings {
  import opened PanelModel
  import opened PanelSteps
  import opened PanelConsistency
  import opened PanelAgreement
  import opened PanelTick
  import opened PanelRuns
  import opened PanelOutcomes
  import opened Renewal
  import XrayConfig

  // ---- what a tick enforces -----------------------------------------------------------------------

  /** After a tick that completes no enabled row is over its quota or past its expiry, and every row
      that the tick found enabled and left disabled is. (One that panics disables nothing:
      PanelTick.PanickedTick.) */
  lemma TickEnforcesLimits(s: State, ins: seq<InboundReport>, reports: seq<Report>, t: Clock, a: Answers, email: string)
    requires email in s.rows && !TickPanics(s, ins, reports, t)
    ensures var r := AddTraffic(s, ins, reports, t, a).rows;
            email in r &&
            var row := r[email];
            && (row.enable ==> !((row.total > 0 && row.up + row.down >= row.total) || 0 < row.expiry <= t.clients))
            && (s.rows[email].enable && !row.enable ==>
                  (row.total > 0 && row.up + row.down >= row.total) || 0 < row.expiry <= t.clients)
  {
    var up, down := TickRowIs(s, ins, reports, t, a, email);
    hide AddTraffic;
    hide TickPanics;
  }

  /** The same holds of every inbound. */
  lemma TickEnforcesInboundLimits(s: State, ins: seq<InboundReport>, reports: seq<Report>, t: Clock, a: Answers,
                                  id: int)
    requires id in s.inbounds && !TickPanics(s, ins, reports, t)
    ensures var r := AddTraffic(s, ins, reports, t, a).inbounds;
            id in r &&
            var ib := r[id];
            && (ib.enable ==> !((ib.total > 0 && ib.up + ib.down >= ib.total) || 0 < ib.expiry <= t.inbounds))
            && (s.inbounds[id].enable && !ib.enable ==>
                  (ib.total > 0 && ib.up + ib.down >= ib.total) || 0 < ib.expiry <= t.inbounds)
  {
    TickInboundIs(s, ins, reports, t, a, id);
    hide AddTraffic;
    hide TickPanics;
  }

  /** A delayed start is turned into now + span by the first report, and never again. */
  lemma DelayedStartOnce(s: State, reports: seq<Report>, now: int, email: string)
    requires email in s.rows && s.rows[email].expiry < 0 && Reported(reports, email) && now >= 0
    ensures var r := AddClientTraffic(s, reports, now);
            email in r.rows && r.rows[email].expiry == now - s.rows[email].expiry > now
            && forall more, later :: AddClientTraffic(r, more, later).rows[email].expiry == r.rows[email].expiry
  {
  }

  /** A row renewed by a tick that completes, at one clock value, ends disabled exactly when the clock is
      on a renewal boundary: its new expiry is then the clock itself, which is not later. */
  lemma RenewedEndsEnabledIff(s: State, now: int, a: Answers, email: string)
    requires email in s.rows && Due(s.rows[email], now)
    ensures var row := s.rows[email];
            var r := DisableInvalidClients(AutoRenewClients(s, now, a), now, a).rows;
            email in r && (r[email].enable <==> (now - row.expiry) % (row.reset * DAY_MS) != 0)
  {
    var row := s.rows[email];
    NextExpiryIsLeast(row.expiry, row.reset, now);
    XrayRenewalExpiresAtOnce(row.expiry, row.reset, now);
    var mid := AutoRenewClients(s, now, a);
    assert mid.rows[email]
        == row.(expiry := NextExpiry(row.expiry, row.reset, now), up := 0, down := 0, enable := true);
  }

  // ---- the job forgets a user it was told about ---------------------------------------------------

  /** No row is due or over a limit, and no inbound is. */
  ghost predicate Quiet(s: State, t: Clock) {
    && (forall e :: e in s.rows ==> !Due(s.rows[e], t.renew) && !InvalidRow(s.rows[e], t.clients))
    && (forall id :: id in s.inbounds ==> !InvalidInbound(s.inbounds[id], t.inbounds))
  }

  lemma QuietRenew(s: State, t: Clock, a: Answers)
    requires Quiet(s, t)
    ensures AutoRenewClients(s, t.renew, a) == s
  {
    assert RenewExpiries(s.rows, t.renew) == map[];
    NoReschedule(s.inbounds, map[]);
    forall tag ensures ReaddedUsers(s, t.renew, a, tag) == {} {}
    assert !RenewNeedsRestart(s, t.renew, a);
    forall tag | tag in s.live ensures s.live[tag] + ReaddedUsers(s, t.renew, a, tag) == s.live[tag] {}
    assert AutoRenewClients(s, t.renew, a).live == s.live;
    assert AutoRenewClients(s, t.renew, a).rows == s.rows;
  }

  lemma QuietDisable(s: State, t: Clock, a: Answers)
    requires Quiet(s, t)
    ensures DisableInvalidClients(s, t.clients, a) == s
  {
    var r := DisableInvalidClients(s, t.clients, a);
    forall tag, e ensures !Struck(s, t.clients, tag, e) {}
    forall tag | tag in s.live ensures r.live[tag] == s.live[tag] {}
    assert r.rows == s.rows && r.live == s.live && !DisableNeedsRestart(s, t.clients, a);
  }

  lemma QuietInbounds(s: State, t: Clock, a: Answers)
    requires Quiet(s, t)
    ensures DisableInvalidInbounds(s, t.inbounds, a) == s
  {
    var q := DisableInvalidInbounds(s, t.inbounds, a);
    forall id | id in s.inbounds
      ensures !InvalidInbound(s.inbounds[id], t.inbounds) && q.inbounds[id] == s.inbounds[id]
    {
    }
    assert q.inbounds == s.inbounds;
    assert q.live == s.live;
  }

  /** A tick on a quiet panel without reports changes nothing. */
  lemma QuietTick(s: State, t: Clock, a: Answers)
    requires Quiet(s, t)
    ensures AddTraffic(s, [], [], t, a) == s
  {
    QuietTraffic(s, t.start);
    QuietRenew(s, t, a);
    QuietDisable(s, t, a);
    QuietInbounds(s, t, a);
  }

  /** A client with its own key, active in a served inbound that has another client before it. */
  ghost predicate LastOfTwo(s: State, id: int, c: Client) {
    && id in s.inbounds && Served(s.inbounds[id]) && s.inbounds[id].protocol.VMess?
    && |s.inbounds[id].clients| >= 2 && s.inbounds[id].clients[|s.inbounds[id].clients| - 1] == c
    && c.email != "" && c.id != "" && c.enable && c.email in s.rows && s.rows[c.email].enable
    && forall i :: 0 <= i < |s.inbounds[id].clients| - 1 ==> s.inbounds[id].clients[i].id != c.id
  }

  lemma {:induction false} OthersKeepAll(p: Protocol, clients: seq<Client>, key: string)
    requires forall c :: c in clients ==> KeyOf(p, c) != key
    ensures Others(p, clients, key) == clients
  {
    if clients != [] {
      var most, last := clients[..|clients| - 1], clients[|clients| - 1];
      assert clients == most + [last] && last in clients;
      forall c | c in most ensures KeyOf(p, c) != key { assert c in clients; }
      OthersKeepAll(p, most, key);
      assert Others(p, clients, key) == Others(p, most, key) + [last];
    }
  }

  lemma OthersOfUnique(p: Protocol, clients: seq<Client>, c: Client)
    requires p.VMess? && clients != [] && clients[|clients| - 1] == c
    requires forall i :: 0 <= i < |clients| - 1 ==> clients[i].id != c.id
    ensures Others(p, clients, c.id) == clients[..|clients| - 1] && LastMatch(p, clients, c.id) == Match(c)
  {
    OthersKeepAll(p, clients[..|clients| - 1], c.id);
  }

  lemma SameLettersSameEmail(t: Table, id: int, c: Client, d: int, x: Client)
    requires UniqueEmails(t) && id in t && d in t && c in t[id].clients && x in t[d].clients
    requires c.email != "" && Lower(x.email) == Lower(c.email)
    ensures x.email == c.email
  {
    var i :| 0 <= i < |t[d].clients| && t[d].clients[i] == x;
    var j :| 0 <= j < |t[id].clients| && t[id].clients[j] == c;
    assert Clash(t, id, j, d, i);
  }

  lemma SomewhereOwned(t: Table, d: int, x: Client)
    requires d in t && x in t[d].clients && x.email != ""
    ensures Owned(t, x.email)
  {
    var k :| 0 <= k < |t[d].clients| && t[d].clients[k] == x;
    assert HasEmail(t, d, k, x.email);
  }

  lemma AddedBackIsNotDuplicate(s: State, s1: State, id: int, c: Client)
    requires Consistent(s) && id in s.inbounds && s1.inbounds == Trimmed(s.inbounds, id, c.id) && c.email != ""
    requires c in s.inbounds[id].clients && !Owned(s1.inbounds, c.email)
    ensures !DuplicateEmail(s1.inbounds, [c])
  {
    assert UniqueEmails(s.inbounds);
    hide Consistent;
    hide UniqueEmails;
    hide Lower;
    if Contains(AllEmails(s1.inbounds), c.email) {
      var e :| e in AllEmails(s1.inbounds) && Lower(e) == Lower(c.email);
      var d, x :| d in s1.inbounds && x in s1.inbounds[d].clients && x.email == e;
      assert x in s.inbounds[d].clients;
      SameLettersSameEmail(s.inbounds, id, c, d, x);
      SomewhereOwned(s1.inbounds, d, x);
      assert false;
    }
    assert !EmailClash(s1.inbounds, [c], 0);
  }

  lemma SameConfig(s: State, r: State)
    requires r.inbounds == s.inbounds
    requires forall id :: Depleted(r.rows, id) == Depleted(s.rows, id)
    ensures ConfigOf(r) == ConfigOf(s)
  {
  }

  /** The deletion works: the client leaves the settings, the rows and the core. */
  lemma DeletedState(s: State, id: int, c: Client, works: Answers) returns (s1: State)
    requires LastOfTwo(s, id, c) && !s.restart && s.inbounds[id].tag in s.live
    requires forall k :: works(k) == Works
    ensures DelInboundClient(s, id, c.id, works) == Done(s1) && !s1.restart
    ensures s1.inbounds == Trimmed(s.inbounds, id, c.id) && s1.rows == s.rows - {c.email} && s1.started == s.started
    ensures s1.inbounds[id].clients + [c] == s.inbounds[id].clients
    ensures OneRowUnderKey(s.inbounds[id], c.id) && DelReachesCore(s, id, c.id)
  {
    var ib := s.inbounds[id];
    OthersOfUnique(ib.protocol, ib.clients, c);
    s1 := DelInboundClient(s, id, c.id, works).state;
  }

  lemma Deleted(s: State, id: int, c: Client, works: Answers) returns (s1: State)
    requires LastOfTwo(s, id, c) && Consistent(s) && Agrees(s) && !s.restart
    requires forall k :: works(k) == Works
    ensures DelInboundClient(s, id, c.id, works) == Done(s1)
    ensures Consistent(s1) && Agrees(s1) && !s1.restart
    ensures s1.inbounds == Trimmed(s.inbounds, id, c.id) && s1.rows == s.rows - {c.email} && s1.started == s.started
    ensures s1.inbounds[id].clients + [c] == s.inbounds[id].clients
  {
    TagIsLive(s, id);
    s1 := DeletedState(s, id, c, works);
    DelKeepsConsistentIff(s, id, c.id, works);
    DelAgreesIff(s, id, c.id, works);
  }

  lemma NoRowNoOwner(s: State, email: string)
    requires Consistent(s) && email !in s.rows
    ensures !Owned(s.inbounds, email)
  {
    if email != "" {
      forall d, i ensures !HasEmail(s.inbounds, d, i, email) {
        assert At(s.inbounds, d, i) ==> ClientHasRow(s.rows, d, ClientAt(s.inbounds, d, i));
      }
    }
  }

  lemma AddOneRow(rows: Rows, id: int, c: Client)
    requires c.email != "" && c.email !in rows
    ensures AddRows(rows, id, [c]) == rows[c.email := NewRow(id, c)]
  {
    assert c in [c];
    assert Emails([c]) == {c.email};
  }

  lemma AddOneUserFails(live: Live, ib: Inbound, c: Client, fails: Answers)
    requires c.email != "" && c.enable && ib.protocol.HasUserApi() && forall k :: fails(k) == Fails
    ensures AddUsersLive(live, ib, [c], fails) == live && AddNeedsRestart(live, ib, [c], fails)
  {
    assert c in [c];
    assert AddedUsers(ib, [c], fails) == {};
    if ib.tag in live {
      assert live[ib.tag] + {} == live[ib.tag];
    }
  }

  /** The core refuses the call that adds the client back: settings and rows have it again, the
      core does not, and a restart is asked for. */
  lemma AddedBack(s: State, s1: State, id: int, c: Client, fails: Answers) returns (s2: State)
    requires LastOfTwo(s, id, c) && Consistent(s) && Consistent(s1) && Agrees(s1) && !s1.restart
    requires s1.inbounds == Trimmed(s.inbounds, id, c.id) && s1.rows == s.rows - {c.email}
    requires s1.inbounds[id].clients + [c] == s.inbounds[id].clients
    requires forall k :: fails(k) == Fails
    ensures AddInboundClient(s1, id, [c], fails) == Done(s2)
    ensures s2 == s1.(inbounds := s.inbounds, rows := s1.rows[c.email := NewRow(id, c)], restart := true)
  {
    hide Owned;
    NoRowNoOwner(s1, c.email);
    AddedBackIsNotDuplicate(s, s1, id, c);
    AddOneRow(s1.rows, id, c);
    AddOneUserFails(s1.live, s1.inbounds[id], c, fails);
    assert !MissingKey(s1.inbounds[id].protocol, [c]);
    assert s1.inbounds[id := s1.inbounds[id].(clients := s1.inbounds[id].clients + [c])] == s.inbounds;
    s2 := AddInboundClient(s1, id, [c], fails).state;
  }

  /** From any agreeing state whose configuration is the one last started: delete a client, add it
      back while the core fails, let the job run. The flag was raised and is down again, nothing was
      restarted, and the core lacks the user. */
  lemma JobForgetsLostUser(s: State, id: int, c: Client, works: Answers, fails: Answers, t: Clock)
    returns (s1: State, s2: State, s3: State)
    requires LastOfTwo(s, id, c) && Inv(s) && !s.restart && s.started == ConfigOf(s) && Quiet(s, t)
    requires (forall k :: works(k) == Works) && (forall k :: fails(k) == Fails)
    requires !OverLimit(c.total, 0, c.expiry, t.clients) && !(c.reset > 0 && 0 < c.expiry <= t.renew)
    ensures DelInboundClient(s, id, c.id, works) == Done(s1) && Inv(s1)
    ensures AddInboundClient(s1, id, [c], fails) == Done(s2) && Inv(s2) && s2.restart
    ensures s3 == CheckRestartJob(s2, t, works) && !s3.restart && !Agrees(s3)
  {
    s1 := Deleted(s, id, c, works);
    s2 := AddedBack(s, s1, id, c, fails);
    AddKeepsConsistent(s1, id, [c], fails);
    QuietAgain(s, s1, s2, id, c, t);
    AddedBackIsForgotten(s, s1, s2, id, c, works, t);
    s3 := CheckRestartJob(s2, t, works);
  }

  lemma QuietAgain(s: State, s1: State, s2: State, id: int, c: Client, t: Clock)
    requires LastOfTwo(s, id, c) && Consistent(s) && Quiet(s, t) && s1.rows == s.rows - {c.email}
    requires s2.inbounds == s.inbounds && s2.rows == s1.rows[c.email := NewRow(id, c)]
    requires !OverLimit(c.total, 0, c.expiry, t.clients) && !(c.reset > 0 && 0 < c.expiry <= t.renew)
    ensures Quiet(s2, t) && forall d :: Depleted(s2.rows, d) == Depleted(s.rows, d)
  {
    RowOfClient(s, id, c);
    forall d ensures Depleted(s2.rows, d) == Depleted(s.rows, d) {}
  }

  lemma AddedBackIsForgotten(s: State, s1: State, s2: State, id: int, c: Client, works: Answers, t: Clock)
    requires LastOfTwo(s, id, c) && s.started == ConfigOf(s) && Consistent(s2) && Quiet(s2, t)
    requires Inv(s1) && !s1.restart && s1.inbounds == Trimmed(s.inbounds, id, c.id) && c.email !in s1.rows
    requires s2.inbounds == s.inbounds && s2.live == s1.live && s2.restart && s2.started == s.started
    requires forall d :: Depleted(s2.rows, d) == Depleted(s.rows, d)
    ensures !CheckRestartJob(s2, t, works).restart && !Agrees(CheckRestartJob(s2, t, works))
  {
    var quiet := s2.(restart := false);
    SameConfig(s, s2);
    QuietTick(quiet, t, works);
    SameConfig(s2, quiet);
    LostUser(s, s1, quiet, id, c);
    JobAgreesIff(s2, t, works);
  }

  lemma LostUser(s: State, s1: State, s2: State, id: int, c: Client)
    requires Consistent(s1) && Agrees(s1) && id in s1.inbounds && Served(s1.inbounds[id])
    requires LastOfTwo(s, id, c) && s1.inbounds[id].tag == s.inbounds[id].tag
               && s1.inbounds[id].protocol == s.inbounds[id].protocol
    requires c.email !in s1.rows
    requires s2.live == s1.live && s2.inbounds == s.inbounds
    requires c.email !in Depleted(s2.rows, id)
    ensures !Agrees(s2)
  {
    var ib := s.inbounds[id];
    var u := LoadedUser(ib.protocol, c);
    assert AgreesAt(s1, id);
    AgreesByUsers(s1, id);
    AgreesByUsers(s2, id);
    assert c in ib.clients && Active(s2, id, c) && u in ActiveUsers(s2, id);
    if x :| x in s1.inbounds[id].clients && Active(s1, id, x) && LoadedUser(ib.protocol, x) == u {
      RowOfClient(s1, id, x);
      assert false;
    }
    assert !AgreesAt(s2, id);
  }

  // ---- an empty email, twice ----------------------------------------------------------------------

  /** A new inbound whose first and third of four clients have no email; the first one's expiry has
      passed. Nothing in AddInbound refuses it. */
  predicate TwoNameless(ib: Inbound, a: Client, b: Client, a': Client, c: Client, now: int) {
    && ib.clients == [a, b, a', c] && ib.protocol.VMess? && ib.enable
    && a.email == a'.email == "" && b.email != "" && c.email != "" && a.enable && b.enable && c.enable
    && 0 < a.expiry <= now && !OverLimit(b.total, 0, b.expiry, now) && !OverLimit(c.total, 0, c.expiry, now)
  }

  lemma FirstOfFour(a: Client, b: Client, a': Client, c: Client)
    requires a.email == a'.email && b.email != a.email && c.email != a.email && b.email != c.email
    ensures var four := [a, b, a', c];
            && a in four && b in four && c in four && RequestEmails(four) == {a.email, b.email, c.email}
            && FirstWith(four, a.email) == a && FirstWith(four, b.email) == b && FirstWith(four, c.email) == c
  {
    var four := [a, b, a', c];
    assert four[0] == a && four[1] == b && four[3] == c && four[2] == a';
    assert four[1..] == [b, a', c] && [b, a', c][1..] == [a', c] && [a', c][1..] == [c];
    forall e ensures e in RequestEmails(four) <==> e in {a.email, b.email, c.email} {}
  }

  lemma NamelessEmails(s: State, ib: Inbound, a: Client, b: Client, a': Client, c: Client, now: int)
    requires Consistent(s) && TwoNameless(ib, a, b, a', c, now) && !DuplicateEmail(s.inbounds, ib.clients)
    ensures "" !in s.rows && b.email !in s.rows && c.email !in s.rows && b.email != c.email
  {
    assert !Owned(s.inbounds, "");
    assert ib.clients[1] == b && ib.clients[3] == c;
    assert !EmailClash(s.inbounds, ib.clients, 1) && !EmailClash(s.inbounds, ib.clients, 3);
    RowIsContained(s, b.email);
    RowIsContained(s, c.email);
  }

  lemma NoRowOfNewInbound(s: State, id: int)
    requires Consistent(s) && id !in s.inbounds
    ensures forall e :: e in s.rows ==> s.rows[e].inboundId != id
  {
    forall e | e in s.rows ensures s.rows[e].inboundId != id {
      assert Owned(s.inbounds, e);
    }
  }

  lemma RowsOfRequest(rows: Rows, id: int, clients: seq<Client>)
    requires RequestEmails(clients) !! rows.Keys
    ensures var r := AddAllRows(rows, id, clients);
            && r.Keys == rows.Keys + RequestEmails(clients)
            && (forall e :: e in RequestEmails(clients) ==> r[e] == NewRow(id, FirstWith(clients, e)))
            && forall e :: e in rows ==> r[e] == rows[e]
  {
  }

  lemma NamelessRows(s: State, id: int, ib: Inbound, a: Client, b: Client, a': Client, c: Client, now: int)
    requires Consistent(s) && id !in s.inbounds && TwoNameless(ib, a, b, a', c, now)
    requires !DuplicateEmail(s.inbounds, ib.clients)
    ensures var rows := AddAllRows(s.rows, id, ib.clients);
            && rows.Keys == s.rows.Keys + {"", b.email, c.email} && b.email != c.email
            && rows[""] == NewRow(id, a) && rows[b.email] == NewRow(id, b) && rows[c.email] == NewRow(id, c)
            && forall e :: e in rows && rows[e].inboundId == id ==> e in {"", b.email, c.email}
  {
    hide RequestEmails;
    hide FirstWith;
    hide AddAllRows;
    hide NewRow;
    hide Consistent;
    NamelessEmails(s, ib, a, b, a', c, now);
    FirstOfFour(a, b, a', c);
    NoRowOfNewInbound(s, id);
    hide DuplicateEmail;
    RowsOfRequest(s.rows, id, ib.clients);
  }

  /** A loop that finds only the nameless row disabled. */
  lemma NamelessPasses(four: seq<Client>, a: Client, b: Client, a': Client, c: Client)
    requires four == [a, b, a', c] && a.email == a'.email == "" && b.email != "" && c.email != ""
    ensures var stats := [XrayConfig.Stat("", false), XrayConfig.Stat(b.email, true), XrayConfig.Stat(c.email, true)];
            var r := XrayConfig.StalePasses(four, 4, stats);
            r.cells[..r.len] == [a', c] && XrayConfig.Without(four, {""}) == [b, c]
                && XrayConfig.Disabled(stats) == {""}
  {
    XrayConfig.ConfigLoopDropsTheWrongClient(a, b, a', c);
    hide XrayConfig.StalePass;
    var bad, good, more := XrayConfig.Stat("", false), XrayConfig.Stat(b.email, true), XrayConfig.Stat(c.email, true);
    var stats := [bad, good, more];
    assert stats[0] == bad && stats[1] == good && stats[2] == more;
    assert stats[..2] == [bad, good] && [bad, good][..1] == [bad] && [bad][..0] == [];
    assert XrayConfig.StalePasses(four, 4, []) == XrayConfig.Slice(four, 4);
    assert XrayConfig.StalePasses(four, 4, [bad]) == XrayConfig.Slice([a', c, c, c], 2);
    assert XrayConfig.StalePasses(four, 4, [bad, good]) == XrayConfig.Slice([a', c, c, c], 2);
  }

  lemma OnlyFirstIsDisabled(s: State, id: int, a: Client, b: Client, c: Client, now: int, x: Answers)
    requires a.enable && b.enable && c.enable && 0 < a.expiry <= now
    requires !OverLimit(b.total, 0, b.expiry, now) && !OverLimit(c.total, 0, c.expiry, now)
    requires "" in s.rows && b.email in s.rows && c.email in s.rows
    requires s.rows[""] == NewRow(id, a) && s.rows[b.email] == NewRow(id, b) && s.rows[c.email] == NewRow(id, c)
    requires forall e :: e in s.rows && s.rows[e].inboundId == id ==> e in {"", b.email, c.email}
    ensures Depleted(DisableInvalidClients(s, now, x).rows, id) == {""}
  {
    var rows := DisableInvalidClients(s, now, x).rows;
    assert rows[""].inboundId == id && !rows[""].enable;
  }

  lemma NewInboundState(s: State, id: int, ib: Inbound, x: Answers)
    requires id !in s.inbounds && ib.protocol.RunsInXray() && AddInbound(s, id, ib, false, x).Done?
    ensures var r := AddInbound(s, id, ib, false, x).state;
            r.rows == AddAllRows(s.rows, id, ib.clients) && id in r.inbounds && r.inbounds[id] == ib
            && !DuplicateEmail(s.inbounds, ib.clients)
  {
    hide AddAllRows;
  }

  lemma NamelessDepleted(s: State, id: int, ib: Inbound, a: Client, b: Client, a': Client, c: Client, now: int,
                         x: Answers)
    requires Consistent(s) && id !in s.inbounds && TwoNameless(ib, a, b, a', c, now)
    requires AddInbound(s, id, ib, false, x).Done?
    ensures var r := DisableInvalidClients(AddInbound(s, id, ib, false, x).state, now, x);
            id in r.inbounds && r.inbounds[id] == ib && Depleted(r.rows, id) == {""}
  {
    NewInboundState(s, id, ib, x);
    NamelessRows(s, id, ib, a, b, a', c, now);
    hide AddAllRows;
    hide AddInbound;
    hide Consistent;
    OnlyFirstIsDisabled(AddInbound(s, id, ib, false, x).state, id, a, b, c, now, x);
  }

  /** Such an inbound is accepted, its nameless row is disabled by the next disabling step, and then
      the configuration loop drops the active client `b` and keeps a nameless one. */
  lemma NamelessClientsMisleadTheLoop(s: State, id: int, ib: Inbound, a: Client, b: Client, a': Client, c: Client,
                                      now: int, x: Answers)
    requires Consistent(s) && id !in s.inbounds && TwoNameless(ib, a, b, a', c, now)
    requires AddInbound(s, id, ib, false, x).Done?
    ensures var r := DisableInvalidClients(AddInbound(s, id, ib, false, x).state, now, x);
            && r.inbounds[id].clients == ib.clients && Depleted(r.rows, id) == {""}
            && XrayConfig.Without(ib.clients, Depleted(r.rows, id)) == [b, c]
    ensures var stats := [XrayConfig.Stat("", false), XrayConfig.Stat(b.email, true), XrayConfig.Stat(c.email, true)];
            var r := XrayConfig.StalePasses(ib.clients, 4, stats);
            XrayConfig.Disabled(stats) == {""} && r.cells[..r.len] == [a', c]
  {
    NamelessDepleted(s, id, ib, a, b, a', c, now, x);
    NamelessPasses(ib.clients, a, b, a', c);
    hide XrayConfig.StalePasses;
    hide XrayConfig.Without;
    hide XrayConfig.Disabled;
    hide AddInbound;
    hide Depleted;
    hide Consistent;
    hide DisableInvalidClients;
  }
}
