/**
 What a tick, a restart and the job leave behind, row by row, inbound by inbound and user by user.
 */
module PanelOutcomes {
  import opened PanelModel
  import opened PanelSteps
  import opened PanelConsistency
  import opened PanelTick
  import opened PanelRuns
  import opened PanelLedger
  import opened PanelRequests
  import opened Renewal
  import XrayConfig

  // ---- one row through a tick ---------------------------------------------------------------------

  predicate FirstAt(reports: seq<Report>, email: string, k: nat)
    requires k < |reports|
  {
    forall j :: 0 <= j < k ==> reports[j].email != email
  }

  /** The report that a row takes: the first with its email, or none. */
  ghost predicate TakesReport(reports: seq<Report>, email: string, up: int, down: int) {
    if exists k :: 0 <= k < |reports| && reports[k].email == email
    then exists k :: 0 <= k < |reports| && reports[k] == Report(email, up, down) && FirstAt(reports, email, k)
    else up == 0 && down == 0
  }

  lemma {:induction false} FirstReportTaken(reports: seq<Report>, email: string)
    ensures TakesReport(reports, email, FirstReport(reports, email).up, FirstReport(reports, email).down)
    ensures Reported(reports, email) <==> exists k :: 0 <= k < |reports| && reports[k].email == email
  {
    if reports != [] {
      var rest := reports[1..];
      assert forall k :: 0 <= k < |rest| ==> rest[k] == reports[k + 1];
      if reports[0].email != email {
        FirstReportTaken(rest, email);
        if k :| 0 <= k < |rest| && rest[k] == FirstReport(rest, email) && FirstAt(rest, email, k) {
          assert reports[k + 1] == rest[k] && FirstAt(reports, email, k + 1);
        }
      }
    }
  }

  /** The quota is used up or the expiry has come. */
  predicate Exhausted(total: int, used: int, expiry: int, now: int) {
    (total > 0 && total <= used) || (expiry > 0 && now >= expiry)
  }

  /** The row before and after a tick that completes: what is reported is added to all three counters, a
      delayed start becomes a date, a renewal empties two counters and moves the expiry by whole periods of
      `reset` days to the first date not before the clock, and an exhausted row is disabled. */
  ghost predicate TickedRow(row: Row, row': Row, reported: bool, up: int, down: int, t: Clock) {
    var expiry := if reported && row.expiry < 0 then t.start - row.expiry else row.expiry;
    var period := row.reset * 86400000;
    var renewed := row.reset > 0 && 0 < expiry <= t.renew;
    && row'.inboundId == row.inboundId && row'.total == row.total && row'.reset == row.reset
    && row'.allTime == row.allTime + up + down
    && row'.up == (if renewed then 0 else row.up + up) && row'.down == (if renewed then 0 else row.down + down)
    && (if renewed then t.renew <= row'.expiry < t.renew + period && (row'.expiry - expiry) % period == 0
        else row'.expiry == expiry)
    && (row'.enable <==> (row.enable || renewed) && !Exhausted(row.total, row'.up + row'.down, row'.expiry, t.clients))
  }

  lemma TickRowIs(s: State, ins: seq<InboundReport>, reports: seq<Report>, t: Clock, a: Answers, email: string)
    returns (up: int, down: int)
    requires email in s.rows && !TickPanics(s, ins, reports, t)
    ensures TakesReport(reports, email, up, down)
    ensures var r := AddTraffic(s, ins, reports, t, a);
            r.rows.Keys == s.rows.Keys
            && TickedRow(s.rows[email], r.rows[email], exists k :: 0 <= k < |reports| && reports[k].email == email,
                         up, down, t)
  {
    hide AddTraffic;
    hide TickPanics;
    hide BeforeRenewal;
    hide AutoRenewClients;
    hide DisableInvalidClients;
    hide TakesReport;
    hide FirstReport;
    FirstReportTaken(reports, email);
    up, down := FirstReport(reports, email).up, FirstReport(reports, email).down;
    TickRowKeys(s, ins, reports, t, a);
    StartedRow(s, ins, reports, t.start, email);
    var b := BeforeRenewal(s, ins, reports, t.start);
    RenewedRow(b, t.renew, a, email);
    DisabledRow(AutoRenewClients(b, t.renew, a), t.clients, a, email);
    PartsOfTick(s, ins, reports, t, a);
  }

  /** A tick that completes, part by part. */
  lemma PartsOfTick(s: State, ins: seq<InboundReport>, reports: seq<Report>, t: Clock, a: Answers)
    requires !TickPanics(s, ins, reports, t)
    ensures var c := AutoRenewClients(BeforeRenewal(s, ins, reports, t.start), t.renew, a);
            var d := DisableInvalidClients(c, t.clients, a);
            && AddTraffic(s, ins, reports, t, a) == DisableInvalidInbounds(d, t.inbounds, a)
            && AddTraffic(s, ins, reports, t, a).rows == d.rows && d.inbounds == c.inbounds
  {
    hide BeforeRenewal;
    hide AutoRenewClients;
    hide TickPanics;
  }

  lemma StartedRow(s: State, ins: seq<InboundReport>, reports: seq<Report>, now: int, email: string)
    requires email in s.rows
    ensures var rows, row, rep := BeforeRenewal(s, ins, reports, now).rows, s.rows[email], FirstReport(reports, email);
            email in rows && rows[email] == Row(
              row.inboundId, row.enable, row.up + rep.up, row.down + rep.down, row.allTime + rep.up + rep.down,
              if Reported(reports, email) && row.expiry < 0 then now - row.expiry else row.expiry, row.total, row.reset)
  {
    hide FirstReport;
    hide Rescheduled;
  }

  lemma RenewedRow(s: State, now: int, a: Answers, email: string)
    requires email in s.rows
    ensures var rows, row := AutoRenewClients(s, now, a).rows, s.rows[email];
            var period, renewed := row.reset * 86400000, row.reset > 0 && 0 < row.expiry <= now;
            email in rows &&
            var row' := rows[email];
            && (!renewed ==> row' == row)
            && (renewed ==> now <= row'.expiry < now + period && (row'.expiry - row.expiry) % period == 0)
            && (renewed ==>
                  row' == Row(row.inboundId, true, 0, 0, row.allTime, row'.expiry, row.total, row.reset))
  {
    var row := s.rows[email];
    if row.reset > 0 && 0 < row.expiry <= now {
      NextExpiryIsLeast(row.expiry, row.reset, now);
    }
    hide NextExpiry;
    hide Rescheduled;
    hide ReaddedUsers;
    hide RenewNeedsRestart;
  }

  lemma DisabledRow(s: State, now: int, a: Answers, email: string)
    requires email in s.rows
    ensures var rows, row := DisableInvalidClients(s, now, a).rows, s.rows[email];
            email in rows && rows[email]
                == row.(enable := row.enable && !Exhausted(row.total, row.up + row.down, row.expiry, now))
  {
    hide Struck;
  }

  // ---- one inbound through a tick -----------------------------------------------------------------

  /** The bytes of the reports about the inbounds of some tags, each report counted once. */
  function InboundBytes(reports: seq<InboundReport>, tags: set<string>): int {
    if reports == [] then 0
    else InboundBytes(reports[1..], tags) +
         if reports[0].isInbound && reports[0].tag in tags then reports[0].up + reports[0].down else 0
  }

  /** An inbound takes all reports with its tag that are not about an outbound: the order does not
      matter, and each direction is a sum of its own. */
  lemma {:induction false} TagSums(reports: seq<InboundReport>, more: seq<InboundReport>, tag: string)
    ensures TagUp(reports + more, tag) == TagUp(reports, tag) + TagUp(more, tag)
    ensures TagDown(reports + more, tag) == TagDown(reports, tag) + TagDown(more, tag)
  {
    if more == [] {
      assert reports + more == reports;
    } else {
      assert (reports + more)[..|reports + more| - 1] == reports + more[..|more| - 1];
      TagSums(reports, more[..|more| - 1], tag);
    }
  }

  lemma TagSumOfOne(r: InboundReport, tag: string)
    ensures TagUp([r], tag) == (if r.isInbound && r.tag == tag then r.up else 0)
    ensures TagDown([r], tag) == (if r.isInbound && r.tag == tag then r.down else 0)
  {
    assert [r][..0] == [];
  }

  lemma {:induction false} TagSumsAreBytes(reports: seq<InboundReport>, tag: string)
    ensures TagUp(reports, tag) + TagDown(reports, tag) == InboundBytes(reports, {tag})
  {
    if reports != [] {
      TagSumsAreBytes(reports[1..], tag);
      TagSums([reports[0]], reports[1..], tag);
      TagSumOfOne(reports[0], tag);
      assert [reports[0]] + reports[1..] == reports;
    }
  }

  /** An inbound that has used its quota or is past its expiry is disabled; its clients change in
      nothing but their expiry. */
  lemma TickInboundIs(s: State, ins: seq<InboundReport>, reports: seq<Report>, t: Clock, a: Answers, id: int)
    requires id in s.inbounds && !TickPanics(s, ins, reports, t)
    ensures var r, ib := AddTraffic(s, ins, reports, t, a), s.inbounds[id];
            var up, down := TagUp(ins, ib.tag), TagDown(ins, ib.tag);
            r.inbounds.Keys == s.inbounds.Keys &&
            var ib' := r.inbounds[id];
            && ib' == Inbound(ib.tag, ib.protocol, ib'.enable, ib.up + up, ib.down + down, ib.allTime + up + down,
                              ib.total, ib.expiry, ib'.clients)
            && (ib'.enable <==> ib.enable && !Exhausted(ib.total, ib'.up + ib'.down, ib.expiry, t.inbounds))
            && SameUsers(ib.clients, ib'.clients)
  {
    hide AddTraffic;
    hide TickPanics;
    hide BeforeRenewal;
    hide AutoRenewClients;
    hide DisableInvalidClients;
    hide DisableInvalidInbounds;
    hide SameUsers;
    hide TagUp;
    hide TagDown;
    StartedInbound(s, ins, reports, t.start, id);
    var b := BeforeRenewal(s, ins, reports, t.start);
    RenewedInbound(b, t.renew, a, id);
    var c := AutoRenewClients(b, t.renew, a);
    PartsOfTick(s, ins, reports, t, a);
    DisabledInbound(DisableInvalidClients(c, t.clients, a), t.inbounds, a, id);
    SameUsersTwice(s.inbounds[id].clients, b.inbounds[id].clients, c.inbounds[id].clients);
  }

  lemma StartedInbound(s: State, ins: seq<InboundReport>, reports: seq<Report>, now: int, id: int)
    requires id in s.inbounds
    ensures var r, ib := BeforeRenewal(s, ins, reports, now), s.inbounds[id];
            var up, down := TagUp(ins, ib.tag), TagDown(ins, ib.tag);
            r.inbounds.Keys == s.inbounds.Keys &&
            var ib' := r.inbounds[id];
            && ib' == ib.(up := ib.up + up, down := ib.down + down, allTime := ib.allTime + up + down,
                          clients := ib'.clients)
            && SameUsers(ib.clients, ib'.clients)
  {
    hide TagUp;
    hide TagDown;
    hide StartExpiries;
    hide Credit;
  }

  lemma RenewedInbound(s: State, now: int, a: Answers, id: int)
    requires id in s.inbounds
    ensures var r, ib := AutoRenewClients(s, now, a), s.inbounds[id];
            r.inbounds.Keys == s.inbounds.Keys && r.inbounds[id] == ib.(clients := r.inbounds[id].clients)
            && SameUsers(ib.clients, r.inbounds[id].clients)
  {
    hide RenewExpiries;
    hide ReaddedUsers;
  }

  lemma DisabledInbound(s: State, now: int, a: Answers, id: int)
    requires id in s.inbounds
    ensures var r, ib := DisableInvalidInbounds(s, now, a), s.inbounds[id];
            r.inbounds.Keys == s.inbounds.Keys && r.inbounds[id]
                == ib.(enable := ib.enable && !Exhausted(ib.total, ib.up + ib.down, ib.expiry, now))
  {
  }

  lemma SameUsersTwice(a: seq<Client>, b: seq<Client>, c: seq<Client>)
    requires SameUsers(a, b) && SameUsers(b, c)
    ensures SameUsers(a, c)
  {
    forall i | 0 <= i < |a| ensures SameUser(a[i], c[i]) {
      assert SameUser(a[i], b[i]) && SameUser(b[i], c[i]);
    }
  }

  lemma SomeMember(ids: set<int>)
    requires ids != {}
    ensures exists id: int :: id in ids
  {
    if forall id: int :: id !in ids {
      assert false;
    }
  }

  /** The sum of AllTime over some inbounds, in any order. */
  ghost function TotalInbounds(t: Table, ids: set<int>): int
    requires ids <= t.Keys
  {
    if ids == {} then 0
    else
      SomeMember(ids);
      var id :| id in ids;
      t[id].allTime + TotalInbounds(t, ids - {id})
  }

  lemma {:induction false} TotalInboundsWithout(t: Table, ids: set<int>, id: int)
    requires ids <= t.Keys && id in ids
    ensures TotalInbounds(t, ids) == t[id].allTime + TotalInbounds(t, ids - {id})
    decreases ids
  {
    var k :| k in ids && TotalInbounds(t, ids) == t[k].allTime + TotalInbounds(t, ids - {k});
    if k != id {
      TotalInboundsWithout(t, ids - {k}, id);
      TotalInboundsWithout(t, ids - {id}, k);
      assert ids - {k} - {id} == ids - {id} - {k};
    }
  }

  lemma {:induction false} BytesOfOneMore(reports: seq<InboundReport>, tags: set<string>, tag: string)
    requires tag !in tags
    ensures InboundBytes(reports, tags + {tag}) == InboundBytes(reports, tags) + InboundBytes(reports, {tag})
  {
    if reports != [] { BytesOfOneMore(reports[1..], tags, tag); }
  }

  function TagsOf(t: Table, ids: set<int>): set<string>
    requires ids <= t.Keys
  {
    set id | id in ids :: t[id].tag
  }

  lemma {:induction false} InboundsGrow(t: Table, r: Table, reports: seq<InboundReport>, ids: set<int>)
    requires DistinctTags(t) && ids <= t.Keys && ids <= r.Keys
    requires forall id :: id in ids ==> r[id].allTime == t[id].allTime + InboundBytes(reports, {t[id].tag})
    ensures TotalInbounds(r, ids) == TotalInbounds(t, ids) + InboundBytes(reports, TagsOf(t, ids))
    decreases ids
  {
    if ids == {} {
      NoBytes(reports);
      assert TagsOf(t, ids) == {};
    } else {
      SomeMember(ids);
      var id :| id in ids;
      var rest := ids - {id};
      InboundsGrow(t, r, reports, rest);
      TotalInboundsWithout(t, ids, id);
      TotalInboundsWithout(r, ids, id);
      assert t[id].tag !in TagsOf(t, rest);
      assert TagsOf(t, ids) == TagsOf(t, rest) + {t[id].tag};
      BytesOfOneMore(reports, TagsOf(t, rest), t[id].tag);
    }
  }

  lemma {:induction false} NoBytes(reports: seq<InboundReport>)
    ensures InboundBytes(reports, {}) == 0
  {
    if reports != [] { NoBytes(reports[1..]); }
  }

  /** A completed tick adds to the inbounds together exactly the bytes of the reports with one of their
      tags: each lands in one inbound, and none is counted twice or lost. */
  lemma TickConservesInboundBytes(s: State, ins: seq<InboundReport>, reports: seq<Report>, t: Clock, a: Answers)
    requires DistinctTags(s.inbounds) && !TickPanics(s, ins, reports, t)
    ensures var r := AddTraffic(s, ins, reports, t, a);
            r.inbounds.Keys == s.inbounds.Keys
            && TotalInbounds(r.inbounds, r.inbounds.Keys)
               == TotalInbounds(s.inbounds, s.inbounds.Keys) + InboundBytes(ins, TagsOf(s.inbounds, s.inbounds.Keys))
  {
    hide AddTraffic;
    hide TickPanics;
    hide TagUp;
    hide TagDown;
    hide SameUsers;
    hide DistinctTags;
    hide InboundBytes;
    var r := AddTraffic(s, ins, reports, t, a);
    TickKeepsInboundKeys(s, ins, reports, t, a);
    forall id | id in s.inbounds
      ensures id in r.inbounds
              && r.inbounds[id].allTime == s.inbounds[id].allTime + InboundBytes(ins, {s.inbounds[id].tag})
    {
      TickInboundIs(s, ins, reports, t, a, id);
      TagSumsAreBytes(ins, s.inbounds[id].tag);
    }
    InboundsGrow(s.inbounds, r.inbounds, ins, s.inbounds.Keys);
  }

  lemma TickKeepsInboundKeys(s: State, ins: seq<InboundReport>, reports: seq<Report>, t: Clock, a: Answers)
    ensures AddTraffic(s, ins, reports, t, a).inbounds.Keys == s.inbounds.Keys
  {
    hide TickPanics;
    hide TagUp;
    hide TagDown;
    hide WithExpiries;
  }

  // ---- the core and the flag through a tick -------------------------------------------------------

  /** A client that renewal gives back: its row was disabled and has come to the end of a period. */
  predicate GivenBack(s: State, now: int, id: int, c: Client) {
    id in s.inbounds && c in s.inbounds[id].clients && c.email in s.rows
    && var row := s.rows[c.email]; !row.enable && row.reset > 0 && row.expiry > 0 && row.expiry <= now
  }

  lemma GivenBackIffReadded(s: State, now: int, id: int, c: Client)
    ensures GivenBack(s, now, id, c) <==> Readded(s, now, id, c)
  {
  }

  predicate BadAnswer(s: State, a: Answers, id: int, c: Client)
    requires id in s.inbounds
  {
    !AddUserReply(s.live, s.inbounds[id].protocol, s.inbounds[id].tag, a(AddUserCall(s.inbounds[id].tag, c.email)))
  }

  /** Renewal panics exactly over a Shadowsocks client to be given back. Otherwise it asks for a restart
      exactly when a call goes wrong. The core gains the users given back under their inbound's tag. */
  lemma RenewChangesCore(s: State, now: int, a: Answers, tag: string, u: User)
    ensures var r := AutoRenewClients(s, now, a);
            && (RenewalPanics(s, now) <==>
                exists id, c :: GivenBack(s, now, id, c) && s.inbounds[id].protocol.Shadowsocks?)
            && (r.restart <==> s.restart || (!RenewalPanics(s, now) &&
                                             exists id, c :: GivenBack(s, now, id, c) && BadAnswer(s, a, id, c)))
            && r.live.Keys == s.live.Keys && r.started == s.started
            && (tag in s.live ==> (u in r.live[tag] <==> u in s.live[tag] || Returned(s, now, a, tag, u)))
  {
    forall id, c ensures GivenBack(s, now, id, c) <==> Readded(s, now, id, c) { GivenBackIffReadded(s, now, id, c); }
    ReturnedIffReadded(s, now, a, tag, u);
    hide GivenBack;
    hide Readded;
    hide ReaddedUsers;
    hide Returned;
    hide AddUserReply;
    hide Rescheduled;
  }

  /** The user of a client given back by a call that took effect, of a protocol whose settings are enough. */
  ghost predicate Returned(s: State, now: int, a: Answers, tag: string, u: User) {
    exists id, c :: GivenBack(s, now, id, c) && IsReturned(s.inbounds[id], a, c, tag, u)
  }

  predicate IsReturned(ib: Inbound, a: Answers, c: Client, tag: string, u: User) {
    ib.tag == tag && (ib.protocol == VMess || ib.protocol == VLess || ib.protocol == Trojan)
    && a(AddUserCall(tag, c.email)) != Fails && IsUserOf(u, ib.protocol, c)
  }

  lemma ReturnedIffReadded(s: State, now: int, a: Answers, tag: string, u: User)
    ensures u in ReaddedUsers(s, now, a, tag) <==> Returned(s, now, a, tag, u)
  {
    forall id, c ensures GivenBack(s, now, id, c) <==> Readded(s, now, id, c) { GivenBackIffReadded(s, now, id, c); }
    forall p, c ensures IsUserOf(u, p, c) <==> u == ApiUser(p, c) { UserOfIffApi(u, p, c); }
    hide IsUserOf;
    hide ApiUser;
    hide Readded;
    if u in ReaddedUsers(s, now, a, tag) {
      var id, c :| id in s.inbounds && c in s.inbounds[id].clients && Readded(s, now, id, c)
        && s.inbounds[id].tag == tag && s.inbounds[id].protocol.HasRawApi()
        && a(AddUserCall(tag, c.email)) != Fails && u == ApiUser(s.inbounds[id].protocol, c);
      assert IsReturned(s.inbounds[id], a, c, tag, u);
    }
  }

  /** A row that is enabled and exhausted, in an inbound that is there. */
  predicate CutOff(s: State, now: int, email: string) {
    email in s.rows && s.rows[email].inboundId in s.inbounds
    && var row := s.rows[email]; row.enable && Exhausted(row.total, row.up + row.down, row.expiry, now)
  }

  predicate Removed(s: State, now: int, a: Answers, tag: string, email: string) {
    CutOff(s, now, email) && s.inbounds[s.rows[email].inboundId].tag == tag && a(RemoveUserCall(tag, email)) != Fails
  }

  /** The users of the rows that are disabled leave the inbound of the row unless the call has no effect,
      and a restart is asked for exactly when one goes wrong. */
  lemma DisableChangesCore(s: State, now: int, a: Answers, tag: string, u: User)
    ensures var r := DisableInvalidClients(s, now, a);
            && (r.restart <==> s.restart || exists e :: CutOff(s, now, e) && WrongRemoval(s, a, e))
            && r.live.Keys == s.live.Keys && r.inbounds == s.inbounds && r.started == s.started
            && (tag in s.live ==> (u in r.live[tag] <==> u in s.live[tag] && !Removed(s, now, a, tag, u.email)))
  {
    forall e
      ensures CutOff(s, now, e) <==> e in s.rows && InvalidRow(s.rows[e], now) && s.rows[e].inboundId in s.inbounds
      ensures Removed(s, now, a, tag, e) <==> Struck(s, now, tag, e) && a(RemoveUserCall(tag, e)) != Fails
    {
    }
    hide CutOff;
    hide Removed;
    hide Struck;
    hide InvalidRow;
    if e :| CutOff(s, now, e) && WrongRemoval(s, a, e) {
      assert DisableNeedsRestart(s, now, a);
    }
    assert DisableNeedsRestart(s, now, a) ==> exists e :: CutOff(s, now, e) && WrongRemoval(s, a, e);
  }

  predicate WrongRemoval(s: State, a: Answers, email: string)
    requires email in s.rows && s.rows[email].inboundId in s.inbounds
  {
    var tag := s.inbounds[s.rows[email].inboundId].tag;
    !(tag in s.live && a(RemoveUserCall(tag, email)) == Works)
  }

  predicate ClosedDown(s: State, now: int, id: int) {
    id in s.inbounds && s.inbounds[id].enable
    && Exhausted(s.inbounds[id].total, s.inbounds[id].up + s.inbounds[id].down, s.inbounds[id].expiry, now)
  }

  predicate WrongClosing(s: State, a: Answers, id: int)
    requires id in s.inbounds
  {
    !(s.inbounds[id].tag in s.live && a(DelInboundCall(s.inbounds[id].tag)) == Works)
  }

  /** The inbounds that are disabled leave the core unless the call has no effect. */
  lemma DisableInboundsChangesCore(s: State, now: int, a: Answers, tag: string)
    ensures var r := DisableInvalidInbounds(s, now, a);
            && (r.restart <==> s.restart || exists id :: ClosedDown(s, now, id) && WrongClosing(s, a, id))
            && r.rows == s.rows && r.started == s.started
            && (tag in r.live <==> tag in s.live && (a(DelInboundCall(tag)) == Fails ||
                                                     !exists id :: ClosedDown(s, now, id) && s.inbounds[id].tag == tag))
            && forall x :: x in r.live ==> r.live[x] == s.live[x]
  {
    forall id ensures ClosedDown(s, now, id) <==> id in s.inbounds && InvalidInbound(s.inbounds[id], now) {}
    hide ClosedDown;
    hide InvalidInbound;
    var r := DisableInvalidInbounds(s, now, a);
    if id :| ClosedDown(s, now, id) && s.inbounds[id].tag == tag && a(DelInboundCall(tag)) != Fails {
      assert tag !in r.live;
    }
    if id :| ClosedDown(s, now, id) && WrongClosing(s, a, id) {
      assert InboundsNeedRestart(s, now, a);
    }
    assert InboundsNeedRestart(s, now, a) ==> exists id :: ClosedDown(s, now, id) && WrongClosing(s, a, id);
  }

  // ---- configurations and restarts ----------------------------------------------------------------

  /** The configuration holds the enabled inbounds but those of the two tunnels. */
  lemma ConfigInbounds(s: State, id: int)
    ensures id in ConfigOf(s) <==>
              id in s.inbounds && s.inbounds[id].enable
              && s.inbounds[id].protocol != AmneziaWG && s.inbounds[id].protocol != NativeWG
  {
  }

  /** Each has its clients but those that its settings or a disabled row of this inbound take out, in
      order. */
  lemma ConfigHolds(s: State, id: int, k: ConfigClient)
    requires id in ConfigOf(s)
    ensures var ib, c := s.inbounds[id], ConfigOf(s)[id];
            && c.tag == ib.tag && c.protocol == ib.protocol
            && (k in c.clients <==> exists x :: x in ib.clients && IsEmitted(s, id, x) && k == Emitted(x))
            && c.clients
               == XrayConfig.ToConfigs(XrayConfig.Enabled(XrayConfig.Without(ib.clients, DisabledRows(s, id))))
  {
    var ib, d := s.inbounds[id], Depleted(s.rows, id);
    assert d == DisabledRows(s, id);
    XrayConfig.KeptIsEnabledWithout(ib.clients, d);
    KeptIsEmitted(ib.clients, d, k);
    hide XrayConfig.Kept;
    hide XrayConfig.ToConfigs;
    hide XrayConfig.Without;
    hide XrayConfig.Enabled;
  }

  function DisabledRows(s: State, id: int): set<string> {
    set e | e in s.rows && s.rows[e].inboundId == id && !s.rows[e].enable
  }

  lemma KeptIsEmitted(clients: seq<Client>, depleted: set<string>, k: ConfigClient)
    ensures k in XrayConfig.ConfigClients(clients, depleted)
            <==> exists x :: x in clients && x.enable && x.email !in depleted && k == Emitted(x)
  {
    var kept := XrayConfig.Kept(clients, depleted);
    hide XrayConfig.Kept;
    forall x ensures ToConfig(x) == Emitted(x) {}
    hide ToConfig;
    hide Emitted;
    if k in XrayConfig.ToConfigs(kept) {
      var i :| 0 <= i < |kept| && ToConfig(kept[i]) == k;
      assert kept[i] in kept;
    }
    if x :| x in clients && x.enable && x.email !in depleted && k == Emitted(x) {
      var i :| 0 <= i < |kept| && kept[i] == x;
      assert XrayConfig.ToConfigs(kept)[i] == k;
    }
  }

  predicate IsEmitted(s: State, id: int, c: Client) {
    c.enable && !(c.email in s.rows && s.rows[c.email].inboundId == id && !s.rows[c.email].enable)
  }

  function Emitted(c: Client): ConfigClient {
    ConfigClient(c.email, c.id, c.password, if c.flow == "xtls-rprx-vision-udp443" then "xtls-rprx-vision" else c.flow)
  }

  /** A core that has started holds the tags of its configuration with the users of their inbounds. */
  lemma LoadHolds(cfg: map<int, ConfigInbound>, tag: string, u: User)
    ensures tag in Load(cfg) <==> exists id :: id in cfg && cfg[id].tag == tag
    ensures tag in Load(cfg) ==> (u in Load(cfg)[tag] <==>
              exists id, k :: id in cfg && cfg[id].tag == tag && k in cfg[id].clients
                              && IsUserOf(u, cfg[id].protocol, AsClient(k)))
  {
    forall p, k ensures IsUserOf(u, p, AsClient(k)) <==> u == ConfigUser(p, k) {}
    hide IsUserOf;
    hide ConfigUser;
  }

  function AsClient(k: ConfigClient): Client {
    Client(k.id, k.password, k.email, k.flow, true, 0, 0, 0)
  }

  /** A restart that completes leaves in `started` the configuration of the tables it leaves, whether it
      started the core again or found that configuration running; it starts it when forced, when the
      flag is up or when the configuration has changed. */
  lemma RestartRecords(s: State, force: bool, t: Clock, a: Answers)
    ensures var r, ticked := RestartXray(s, force, t, a), AddTraffic(s, [], [], t, a);
            && r.inbounds == ticked.inbounds && r.rows == ticked.rows && r.restart == s.restart
            && (TickPanics(s, [], [], t) ==> r.live == ticked.live && r.started == s.started)
            && (!TickPanics(s, [], [], t) ==>
                  && r.started == ConfigOf(r)
                  && r.live == if force || s.restart || ConfigOf(r) != s.started then Load(ConfigOf(r))
                               else ticked.live)
  {
    TickKeepsStarted(s, [], [], t, a);
    hide AddTraffic;
    hide TickPanics;
    hide ConfigOf;
    var ticked := AddTraffic(s, [], [], t, a);
    var x := ticked.(restart := s.restart);
    SameTablesSameConfig(x, RestartXray(s, force, t, a));
  }

  lemma SameTablesSameConfig(s: State, r: State)
    requires r.inbounds == s.inbounds && r.rows == s.rows
    ensures ConfigOf(r) == ConfigOf(s)
  {
  }

  lemma TickKeepsStarted(s: State, ins: seq<InboundReport>, reports: seq<Report>, t: Clock, a: Answers)
    ensures AddTraffic(s, ins, reports, t, a).started == s.started
  {
    hide TickPanics;
  }

  /** The job with the flag up does the same without force; with the flag down it does nothing. */
  lemma JobRecords(s: State, t: Clock, a: Answers)
    ensures !s.restart ==> CheckRestartJob(s, t, a) == s
    ensures s.restart && !TickPanics(s, [], [], t) ==>
              var r := CheckRestartJob(s, t, a);
              var ticked := AddTraffic(s.(restart := false), [], [], t, a);
              && !r.restart && r.started == ConfigOf(r) && r.inbounds == ticked.inbounds && r.rows == ticked.rows
              && r.live == if ConfigOf(r) != s.started then Load(ConfigOf(r)) else ticked.live
  {
    if s.restart {
      PanicsIgnoresFlag(s, s.(restart := false), t);
      RestartRecords(s.(restart := false), false, t, a);
    }
    hide RestartXray;
    hide TickPanics;
  }

  /** The step is a restart that completes. */
  predicate Restarts(s: State, e: Event) {
    (e.step.ForceRestart? || (e.step.RestartJob? && s.restart)) && !TickPanics(s, [], [], e.step.clock)
  }

  lemma OtherStepsKeepStarted(s: State, e: Event)
    requires !Restarts(s, e)
    ensures Apply(s, e).started == s.started
  {
    if e.step.Traffic? {
      TickKeepsStarted(s, e.step.ins, e.step.reports, e.step.clock, e.answers);
      hide AddTraffic;
    } else if e.step.ForceRestart? || e.step.RestartJob? {
      PanickedRestartKeepsStarted(s, e);
      hide Apply;
    } else {
      RequestsKeepStarted(s, e);
      hide Apply;
    }
  }

  lemma PanickedRestartKeepsStarted(s: State, e: Event)
    requires !Restarts(s, e) && (e.step.ForceRestart? || e.step.RestartJob?)
    ensures Apply(s, e).started == s.started
  {
    hide AddTraffic;
    hide TickPanics;
    var t, quiet := e.step.clock, s.(restart := false);
    PanicsIgnoresFlag(s, quiet, t);
    TickKeepsStarted(s, [], [], t, e.answers);
    TickKeepsStarted(quiet, [], [], t, e.answers);
  }

  lemma UpdateKeepsStarted(s: State, e: Event)
    requires e.step.UpdateClient?
    ensures Apply(s, e).started == s.started
  {
    hide DuplicateEmail;
    hide UpdateRows;
    hide FirstIndex;
  }

  lemma OtherRequestsKeepStarted(s: State, e: Event)
    requires !e.step.Traffic? && !e.step.ForceRestart? && !e.step.RestartJob? && !e.step.UpdateClient?
    ensures Apply(s, e).started == s.started
  {
    hide DuplicateEmail;
    hide LastMatch;
    hide AddTraffic;
    hide UpdateInboundClient;
    if e.step.ResetClient? || e.step.ResetAll? || e.step.AddClients? {
      hide DelInboundClient;
      hide DelInbound;
      hide AddInbound;
    } else {
      hide ResetClientTraffic;
      hide AddInboundClient;
    }
  }

  lemma RequestsKeepStarted(s: State, e: Event)
    requires !e.step.Traffic? && !e.step.ForceRestart? && !e.step.RestartJob?
    ensures Apply(s, e).started == s.started
  {
    match e.step
    case UpdateClient(_, _, _) => UpdateKeepsStarted(s, e);
    case _ => OtherRequestsKeepStarted(s, e);
    hide Apply;
  }

  /** Along every run `started` is the configuration the tables had after the last restart that
      completed, or the one at the start if there was none. */
  lemma {:induction false} StartedAlongRun(states: seq<State>, events: seq<Event>, n: nat) returns (k: nat)
    requires Run(states, events) && n <= |events|
    ensures k <= n && forall i :: k <= i < n ==> !Restarts(states[i], events[i])
    ensures states[n].started == if k == 0 then states[0].started else ConfigOf(states[k])
    ensures k > 0 ==> Restarts(states[k - 1], events[k - 1])
  {
    hide Apply;
    hide Restarts;
    hide ConfigOf;
    if n == 0 {
      k := 0;
    } else {
      k := StartedAlongRun(states, events, n - 1);
      assert states[n - 1 + 1] == Apply(states[n - 1], events[n - 1]);
      if Restarts(states[n - 1], events[n - 1]) {
        k := n;
        RestartStepRecords(states[n - 1], events[n - 1]);
      } else {
        OtherStepsKeepStarted(states[n - 1], events[n - 1]);
      }
    }
  }

  lemma RestartStepRecords(s: State, e: Event)
    requires Restarts(s, e)
    ensures Apply(s, e).started == ConfigOf(Apply(s, e))
  {
    hide AddTraffic;
    hide TickPanics;
    hide RestartXray;
    hide CheckRestartJob;
    hide ConfigOf;
    if e.step.ForceRestart? {
      RestartRecords(s, true, e.step.clock, e.answers);
    } else {
      JobRecords(s, e.step.clock, e.answers);
    }
  }
}
