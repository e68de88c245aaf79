/**
 The panel's operations as they run: loops over the settings lists, the table rows and the calls to
 the core, updating the tables in place (web/service/inbound.go). Each method ends in the state that
 PanelSteps says; SQL statements without an order visit their rows in any order.
 */
module PanelService {
  import opened PanelModel
  import opened PanelSteps
  import opened PanelConsistency
  import opened Renewal
  import opened PanelLedger
  import XrayConfig
  import PanelAgreement
  import PanelTick

  // ---- prefixes of a request ----------------------------------------------------------------------

  lemma {:induction false} FirstWithPrefix(clients: seq<Client>, c: Client, email: string)
    requires (exists k :: k in clients && k.email == email) || c.email == email
    ensures FirstWith(clients + [c], email) ==
            if exists k :: k in clients && k.email == email then FirstWith(clients, email) else c
  {
    var all := clients + [c];
    assert c in all && forall k :: k in clients ==> k in all;
    if clients != [] && clients[0].email != email {
      assert all[1..] == clients[1..] + [c];
      FirstWithPrefix(clients[1..], c, email);
    }
  }

  lemma EmailsSnoc(clients: seq<Client>, c: Client)
    ensures Emails(clients + [c]) == Emails(clients) + (if c.email == "" then {} else {c.email})
  {
    assert forall k :: k in clients + [c] <==> k in clients || k == c;
  }

  lemma FirstWithSnoc(clients: seq<Client>, c: Client, email: string)
    requires email != "" && email in Emails(clients + [c])
    ensures FirstWith(clients + [c], email) == if email in Emails(clients) then FirstWith(clients, email) else c
  {
    EmailsSnoc(clients, c);
    FirstWithPrefix(clients, c, email);
  }

  lemma NothingAddedYet(rows: Rows, live: Live, id: int, ib: Inbound, a: Answers)
    ensures AddRows(rows, id, []) == rows && AddUsersLive(live, ib, [], a) == live && !AddNeedsRestart(live, ib, [], a)
  {
    assert Emails([]) == {} && AddedUsers(ib, [], a) == {};
    if ib.tag in live {
      assert live[ib.tag] + {} == live[ib.tag];
    }
  }

  lemma AddRowsSnoc(rows: Rows, id: int, clients: seq<Client>, c: Client)
    ensures var done := AddRows(rows, id, clients);
            AddRows(rows, id, clients + [c]) ==
            if c.email == "" || c.email in done then done else done[c.email := NewRow(id, c)]
  {
    hide NewRow;
    hide FirstWith;
    EmailsSnoc(clients, c);
    var done, after := AddRows(rows, id, clients), AddRows(rows, id, clients + [c]);
    var expected := if c.email == "" || c.email in done then done else done[c.email := NewRow(id, c)];
    assert after.Keys == expected.Keys;
    forall e | e in after ensures after[e] == expected[e] {
      if e !in rows { FirstWithSnoc(clients, c, e); }
    }
  }

  lemma AddUsersSnoc(live: Live, ib: Inbound, clients: seq<Client>, c: Client, a: Answers)
    ensures var done := AddUsersLive(live, ib, clients, a);
            && done.Keys == live.Keys
            && AddUsersLive(live, ib, clients + [c], a) ==
               (if c.email != "" && c.enable
                then AddUserLive(done, ib.protocol, ib.tag, ApiUser(ib.protocol, c), a(AddUserCall(ib.tag, c.email)))
                else done)
            && (AddNeedsRestart(live, ib, clients + [c], a) <==>
                AddNeedsRestart(live, ib, clients, a) || c.email == "" ||
                (c.enable && !AddUserReply(done, ib.protocol, ib.tag, a(AddUserCall(ib.tag, c.email)))))
  {
    var all := clients + [c];
    assert forall k :: k in all <==> k in clients || k == c;
    var more := if c.email != "" && c.enable && a(AddUserCall(ib.tag, c.email)) != Fails
      then {ApiUser(ib.protocol, c)} else {};
    assert AddedUsers(ib, all, a) == AddedUsers(ib, clients, a) + more;
    if ib.protocol.HasUserApi() && ib.tag in live {
      assert live[ib.tag] + AddedUsers(ib, all, a) == (live[ib.tag] + AddedUsers(ib, clients, a)) + more;
      assert AddUsersLive(live, ib, clients, a)[ib.tag] + {} == AddUsersLive(live, ib, clients, a)[ib.tag];
    }
  }

  // ---- rescheduling one settings list ------------------------------------------------------------

  /** No two clients share a non-empty email; what Consistent says about one inbound. */
  predicate DistinctEmails(clients: seq<Client>) {
    forall i, j :: 0 <= i < j < |clients| && clients[i].email != "" ==> clients[i].email != clients[j].email
  }

  predicate Among(clients: seq<Client>, email: string) {
    exists i :: 0 <= i < |clients| && clients[i].email == email
  }

  /** The new expiries of the in-memory rows whose start is delayed. */
  function Starts(db: Rows, now: int): map<string, int> {
    map e | e in db && db[e].expiry < 0 :: now - db[e].expiry
  }

  function Started(row: Row, now: int): Row {
    if row.expiry < 0 then row.(expiry := now - row.expiry) else row
  }

  /** The inner loops of adjustTraffics over one inbound. Both copies get the value computed from
      the settings. */
  method StartClients(clients: seq<Client>, db: Rows, now: int) returns (list: seq<Client>, db': Rows)
    requires DistinctEmails(clients) && "" !in db
    requires forall c :: c in clients && c.email in db ==> c.expiry == db[c.email].expiry
    ensures list == WithExpiries(clients, Starts(db, now)) && db' == StartedAmong(clients, db, now)
  {
    hide StartedAmong;
    hide Starts;
    hide DistinctEmails;
    list, db' := [], db;
    StartedNone(db, now);
    assert clients[..0] == [];
    for i := 0 to |clients|
      invariant list == WithExpiries(clients[..i], Starts(db, now))
      invariant db' == StartedAmong(clients[..i], db, now)
    {
      var c := clients[i];
      assert c in clients;
      StartedSnoc(clients, i, db, now);
      if c.email in db' && db'[c.email].expiry < 0 {
        db' := db'[c.email := db'[c.email].(expiry := now - c.expiry)];
        c := c.(expiry := now - c.expiry);
      }
      list := list + [c];
    }
    assert clients[..|clients|] == clients;
  }

  ghost function StartedAmong(clients: seq<Client>, db: Rows, now: int): Rows {
    map e | e in db :: if Among(clients, e) then Started(db[e], now) else db[e]
  }

  lemma StartedNone(db: Rows, now: int)
    ensures StartedAmong([], db, now) == db
  {
  }

  lemma StartedSnoc(clients: seq<Client>, i: nat, db: Rows, now: int)
    requires DistinctEmails(clients) && "" !in db && i < |clients|
    requires clients[i].email in db ==> clients[i].expiry == db[clients[i].email].expiry
    ensures var c, most, before := clients[i], clients[..i], StartedAmong(clients[..i], db, now);
            var starts := c.email in before && before[c.email].expiry < 0;
            && StartedAmong(clients[..i + 1], db, now)
               == (if starts then before[c.email := before[c.email].(expiry := now - c.expiry)] else before)
            && WithExpiries(clients[..i + 1], Starts(db, now))
               == WithExpiries(most, Starts(db, now)) + [if starts then c.(expiry := now - c.expiry) else c]
  {
    AmongSnoc(clients, i);
    assert clients[..i + 1] == clients[..i] + [clients[i]];
    hide Among;
    hide DistinctEmails;
  }

  lemma AmongSnoc(clients: seq<Client>, i: nat)
    requires i < |clients|
    ensures forall e :: Among(clients[..i + 1], e) <==> Among(clients[..i], e) || clients[i].email == e
    ensures DistinctEmails(clients) && clients[i].email != "" ==> !Among(clients[..i], clients[i].email)
  {
    forall e | Among(clients[..i], e) ensures Among(clients[..i + 1], e) {
      var k :| 0 <= k < i && clients[k].email == e;
      assert clients[..i + 1][k].email == e;
    }
    assert clients[..i + 1][i] == clients[i];
  }

  function Renewed(row: Row, now: int): Row {
    if Due(row, now) then row.(expiry := NextExpiry(row.expiry, row.reset, now), up := 0, down := 0, enable := true)
    else row
  }

  /** A user to be added once the renewed tables are saved. */
  datatype Pending = Pending(protocol: Protocol, tag: string, client: Client)

  function Later(ib: Inbound, clients: seq<Client>, db: Rows, now: int): set<Pending> {
    set c | c in clients && c.email in db && Due(db[c.email], now) && !db[c.email].enable ::
      Pending(ib.protocol, ib.tag, c.(expiry := NextExpiry(db[c.email].expiry, db[c.email].reset, now)))
  }

  /** The inner loops of autoRenewClients over one inbound. */
  method RenewClients(ib: Inbound, db: Rows, now: int) returns (list: seq<Client>, db': Rows, later: set<Pending>)
    requires DistinctEmails(ib.clients) && "" !in db
    requires forall c :: c in ib.clients && c.email in db ==> Due(db[c.email], now)
    ensures list == WithExpiries(ib.clients, RenewExpiries(db, now))
    ensures db' == map e | e in db :: if Among(ib.clients, e) then Renewed(db[e], now) else db[e]
    ensures later == Later(ib, ib.clients, db, now)
  {
    hide NextExpiry;
    assert WithExpiries([], RenewExpiries(db, now)) == [] && Later(ib, [], db, now) == {};
    hide Later;
    hide WithExpiries;
    list, db', later := [], db, {};
    for i := 0 to |ib.clients|
      invariant list == WithExpiries(ib.clients[..i], RenewExpiries(db, now))
      invariant db' == map e | e in db :: if Among(ib.clients[..i], e) then Renewed(db[e], now) else db[e]
      invariant later == Later(ib, ib.clients[..i], db, now)
    {
      var c := ib.clients[i];
      assert ib.clients[..i + 1] == ib.clients[..i] + [c];
      LaterSnoc(ib, ib.clients[..i], c, db, now);
      WithExpiriesSnoc(ib.clients[..i], c, RenewExpiries(db, now));
      AmongSnoc(ib.clients, i);
      if c.email in db' {
        var row := db'[c.email];
        assert c in ib.clients && row == db[c.email];
        var newExpiry := RenewXray(row.expiry, row.reset, now);
        c := c.(expiry := newExpiry);
        db' := db'[c.email := row.(expiry := newExpiry, up := 0, down := 0, enable := true)];
        if !row.enable {
          later := later + {Pending(ib.protocol, ib.tag, c)};
        }
      }
      list := list + [c];
    }
    assert ib.clients[..|ib.clients|] == ib.clients;
  }

  lemma LaterSnoc(ib: Inbound, clients: seq<Client>, c: Client, db: Rows, now: int)
    ensures Later(ib, clients + [c], db, now) == Later(ib, clients, db, now) +
            if c.email in db && Due(db[c.email], now) && !db[c.email].enable
            then {Pending(ib.protocol, ib.tag, c.(expiry := NextExpiry(db[c.email].expiry, db[c.email].reset, now)))}
            else {}
  {
    hide NextExpiry;
    assert forall k :: k in clients + [c] <==> k in clients || k == c;
  }

  lemma WithExpiriesSnoc(clients: seq<Client>, c: Client, next: map<string, int>)
    ensures WithExpiries(clients + [c], next) ==
            WithExpiries(clients, next) + [if c.email in next then c.(expiry := next[c.email]) else c]
  {
  }

  /** In a consistent panel the clients of an inbound are known by their rows. */
  lemma ListFacts(t: Table, rows: Rows, id: int)
    requires Agreed(t, rows) && id in t
    ensures DistinctEmails(t[id].clients) && "" !in rows
    ensures forall c :: c in t[id].clients && c.email in rows ==> RowFits(rows[c.email], id, c)
    ensures forall e :: e in rows ==> (Among(t[id].clients, e) <==> rows[e].inboundId == id)
  {
    assert !Owned(t, "");
    forall i, j | 0 <= i < j < |t[id].clients| && t[id].clients[i].email != ""
      ensures t[id].clients[i].email != t[id].clients[j].email
    {
      if t[id].clients[i].email == t[id].clients[j].email {
        EmailIsAtOnePlace(t, id, i, id, j, t[id].clients[i].email);
        assert false;
      }
    }
    forall c | c in t[id].clients && c.email in rows ensures RowFits(rows[c.email], id, c) {
      var i :| 0 <= i < |t[id].clients| && t[id].clients[i] == c;
      assert At(t, id, i) && ClientHasRow(rows, id, ClientAt(t, id, i));
    }
    forall e | e in rows ensures Among(t[id].clients, e) <==> rows[e].inboundId == id {
      AmongIsOwn(t, rows, id, e);
    }
  }

  lemma AmongIsOwn(t: Table, rows: Rows, id: int, e: string)
    requires Agreed(t, rows) && e in rows
    ensures rows[e].inboundId in t && (id in t ==> (Among(t[id].clients, e) <==> rows[e].inboundId == id))
  {
    assert Owned(t, e);
    var d, i :| HasEmail(t, d, i, e);
    assert ClientHasRow(rows, d, ClientAt(t, d, i));
    if d == id {
      assert t[id].clients[i].email == e;
    }
    if id in t && Among(t[id].clients, e) {
      var k :| 0 <= k < |t[id].clients| && t[id].clients[k].email == e;
      assert HasEmail(t, id, k, e);
      EmailIsAtOnePlace(t, d, i, id, k, e);
    }
  }

  lemma SameReschedule(clients: seq<Client>, m: map<string, int>, n: map<string, int>)
    requires forall c :: c in clients ==>
               (c.email in m <==> c.email in n) && (c.email in m ==> m[c.email] == n[c.email])
    ensures WithExpiries(clients, m) == WithExpiries(clients, n)
  {
  }

  /** The inbounds of `done` have been rescheduled, the others have not. */
  ghost predicate PartlyRescheduled(t: Table, r: Table, next: map<string, int>, done: set<int>) {
    r.Keys == t.Keys && forall id :: id in t ==>
      r[id] == if id in done then t[id].(clients := WithExpiries(t[id].clients, next)) else t[id]
  }

  lemma PartlyStep(t: Table, r: Table, next: map<string, int>, done: set<int>, id: int)
    requires id in t && id !in done && PartlyRescheduled(t, r, next, done)
    ensures id in r && r[id] == t[id]
    ensures PartlyRescheduled(t, r[id := t[id].(clients := WithExpiries(t[id].clients, next))], next, done + {id})
  {
  }

  lemma AllRescheduled(t: Table, rows: Rows, r: Table, next: map<string, int>, done: set<int>)
    requires Agreed(t, rows) && next.Keys <= rows.Keys && PartlyRescheduled(t, r, next, done)
    requires forall e :: e in next ==> rows[e].inboundId in done
    ensures r == Rescheduled(t, next)
  {
    forall id | id in t ensures r[id] == Rescheduled(t, next)[id] {
      if id !in done {
        ListFacts(t, rows, id);
        SameReschedule(t[id].clients, next, map[]);
        assert WithExpiries(t[id].clients, map[]) == t[id].clients;
      }
    }
  }

  /** The in-memory rows once the inbounds of `done` have been adjusted. */
  function Adjusted(hits: Rows, done: set<int>, now: int): Rows {
    map e | e in hits :: if hits[e].inboundId in done then Started(hits[e], now) else hits[e]
  }

  lemma AdjustStep(t: Table, rows: Rows, hits: Rows, done: set<int>, id: int, now: int)
    requires Agreed(t, rows) && id in t && id !in done
    requires hits.Keys <= rows.Keys && forall e :: e in hits ==> hits[e] == rows[e]
    ensures var db, clients := Adjusted(hits, done, now), t[id].clients;
            && DistinctEmails(clients) && "" !in db
            && (forall c :: c in clients && c.email in db ==> c.expiry == db[c.email].expiry)
            && WithExpiries(clients, Starts(db, now)) == WithExpiries(clients, Starts(hits, now))
            && (map e | e in db :: if Among(clients, e) then Started(db[e], now) else db[e])
                == Adjusted(hits, done + {id}, now)
  {
    ListFacts(t, rows, id);
    var db, clients := Adjusted(hits, done, now), t[id].clients;
    forall c | c in clients && c.email in hits ensures hits[c.email].inboundId == id && db[c.email] == hits[c.email] {
      assert RowFits(rows[c.email], id, c);
    }
    SameReschedule(clients, Starts(db, now), Starts(hits, now));
  }

  lemma AddInboundSnoc(t: Table, reports: seq<InboundReport>, r: InboundReport)
    ensures var done := PanelSteps.AddInboundTraffic(t, reports);
            PanelSteps.AddInboundTraffic(t, reports + [r]) == map id | id in done ::
              if r.isInbound && done[id].tag == r.tag
              then done[id].(up := done[id].up + r.up, down := done[id].down + r.down,
                              allTime := done[id].allTime + r.up + r.down)
              else done[id]
  {
    assert (reports + [r])[..|reports|] == reports;
    var done, all := PanelSteps.AddInboundTraffic(t, reports), PanelSteps.AddInboundTraffic(t, reports + [r]);
    forall id | id in t
      ensures all[id] == if r.isInbound && done[id].tag == r.tag
                         then done[id].(up := done[id].up + r.up, down := done[id].down + r.down,
                                         allTime := done[id].allTime + r.up + r.down)
                         else done[id]
    {
    }
  }

  lemma NoInboundReports(t: Table)
    ensures PanelSteps.AddInboundTraffic(t, []) == t
  {
    forall id | id in t ensures PanelSteps.AddInboundTraffic(t, [])[id] == t[id] {}
  }

  lemma NoHits(s: State, reports: seq<Report>, now: int)
    requires forall e :: e in s.rows ==> !Reported(reports, e)
    ensures PanelSteps.AddClientTraffic(s, reports, now) == s
  {
    var next := StartExpiries(s.rows, reports, now);
    forall id | id in s.inbounds ensures WithExpiries(s.inbounds[id].clients, next) == s.inbounds[id].clients {}
    assert Rescheduled(s.inbounds, next) == s.inbounds;
    assert PanelSteps.AddClientTraffic(s, reports, now).rows == s.rows;
  }

  /** The users that pending additions put under a tag. */
  function PendingUsers(pending: set<Pending>, a: Answers, tag: string): set<User> {
    set q | q in pending && q.tag == tag && q.protocol.HasRawApi() && a(AddUserCall(tag, q.client.email)) != Fails
      :: ApiUser(q.protocol, q.client)
  }

  predicate PendingFails(live: Live, pending: set<Pending>, a: Answers) {
    exists q :: q in pending && !AddUserReply(live, q.protocol, q.tag, a(AddUserCall(q.tag, q.client.email)))
  }

  function PendingLive(live: Live, pending: set<Pending>, a: Answers): Live {
    map tag | tag in live :: live[tag] + PendingUsers(pending, a, tag)
  }

  lemma NothingPending(live: Live, a: Answers)
    ensures PendingLive(live, {}, a) == live
  {
    forall tag | tag in live ensures live[tag] + PendingUsers({}, a, tag) == live[tag] {}
  }

  lemma PendingUsersStep(done: set<Pending>, q: Pending, a: Answers, tag: string)
    ensures PendingUsers(done + {q}, a, tag) ==
            if tag == q.tag && q.protocol.HasRawApi() && a(AddUserCall(q.tag, q.client.email)) != Fails
            then PendingUsers(done, a, tag) + {ApiUser(q.protocol, q.client)} else PendingUsers(done, a, tag)
  {
  }

  lemma PendingLiveStep(live: Live, done: set<Pending>, q: Pending, a: Answers)
    requires !q.protocol.Shadowsocks?
    ensures AddUserLive(PendingLive(live, done, a), q.protocol, q.tag, ApiUser(q.protocol, q.client),
                        a(AddUserCall(q.tag, q.client.email)))
            == PendingLive(live, done + {q}, a)
  {
    var fate := a(AddUserCall(q.tag, q.client.email));
    var l := AddUserLive(PendingLive(live, done, a), q.protocol, q.tag, ApiUser(q.protocol, q.client), fate);
    forall tag | tag in live ensures l[tag] == PendingLive(live, done + {q}, a)[tag] {
      PendingUsersStep(done, q, a, tag);
    }
  }

  lemma PendingFailsStep(live: Live, done: set<Pending>, q: Pending, a: Answers)
    ensures PendingFails(live, done + {q}, a) <==>
            PendingFails(live, done, a)
                || !AddUserReply(PendingLive(live, done, a), q.protocol, q.tag, a(AddUserCall(q.tag, q.client.email)))
  {
  }

  /** The inbounds of delayed rows are there. */
  lemma OwnInboundsExist(t: Table, rows: Rows, hits: Rows)
    requires Agreed(t, rows) && hits.Keys <= rows.Keys && (forall e :: e in hits ==> hits[e] == rows[e])
    ensures forall e :: e in hits ==> hits[e].inboundId in t
  {
    forall e | e in hits ensures hits[e].inboundId in t {
      AmongIsOwn(t, rows, hits[e].inboundId, e);
    }
  }

  method AdjustInbound(ghost t: Table, ghost rows: Rows, ghost hits: Rows, db: Rows, ghost done: set<int>,
                       ghost id: int,
                       clients: seq<Client>, now: int)
    returns (list: seq<Client>, db': Rows)
    requires Agreed(t, rows) && id in t && id !in done && clients == t[id].clients
    requires hits.Keys <= rows.Keys && (forall e :: e in hits ==> hits[e] == rows[e]) && db == Adjusted(hits, done, now)
    ensures list == WithExpiries(t[id].clients, Starts(hits, now))
    ensures db' == Adjusted(hits, done + {id}, now)
  {
    AdjustStep(t, rows, hits, done, id, now);
    list, db' := StartClients(clients, db, now);
  }

  lemma AdjustedAll(hits: Rows, ids: set<int>, now: int)
    requires ids == set e | e in hits && hits[e].expiry < 0 :: hits[e].inboundId
    ensures Adjusted(hits, ids, now) == AllStarted(hits, now)
  {
    forall e | e in hits ensures Adjusted(hits, ids, now)[e] == Started(hits[e], now) {}
  }

  function AllStarted(hits: Rows, now: int): Rows {
    map e | e in hits :: Started(hits[e], now)
  }

  function Credited(rows: Rows, db: Rows, reports: seq<Report>): Rows {
    map e | e in rows :: if e in db then Credit(db[e], FirstReport(reports, e)) else rows[e]
  }

  function Hits(rows: Rows, reports: seq<Report>): Rows {
    map e | e in rows && Reported(reports, e) :: rows[e]
  }

  lemma AdjustedNone(hits: Rows, now: int)
    ensures Adjusted(hits, {}, now) == hits
  {
  }

  lemma HitsStart(s: State, reports: seq<Report>, now: int)
    ensures Starts(Hits(s.rows, reports), now) == StartExpiries(s.rows, reports, now)
  {
  }

  lemma CreditedAt(s: State, reports: seq<Report>, now: int, e: string)
    requires e in s.rows
    ensures var spec := PanelSteps.AddClientTraffic(s, reports, now).rows;
            e in spec && spec[e] == Credited(s.rows, AllStarted(Hits(s.rows, reports), now), reports)[e]
  {
    TrafficRow(s, reports, now, e);
    var hits := Hits(s.rows, reports);
    assert e in hits <==> Reported(reports, e);
  }

  /** Crediting the adjusted rows that were hit is crediting every row. */
  lemma CreditedAll(s: State, reports: seq<Report>, now: int)
    ensures PanelSteps.AddClientTraffic(s, reports, now).rows
            == Credited(s.rows, AllStarted(Hits(s.rows, reports), now), reports)
  {
    forall e | e in s.rows
      ensures PanelSteps.AddClientTraffic(s, reports, now).rows[e]
              == Credited(s.rows, AllStarted(Hits(s.rows, reports), now), reports)[e]
    {
      CreditedAt(s, reports, now, e);
    }
  }

  // ---- renewal ------------------------------------------------------------------------------------

  function DueOf(rows: Rows, now: int): Rows {
    map e | e in rows && Due(rows[e], now) :: rows[e]
  }

  /** The in-memory due rows once the inbounds of `done` have been gone through. */
  function PartlyRenewed(due: Rows, done: set<int>, now: int): Rows {
    map e | e in due :: if due[e].inboundId in done then Renewed(due[e], now) else due[e]
  }

  function AllRenewed(due: Rows, now: int): Rows {
    map e | e in due :: Renewed(due[e], now)
  }

  lemma AllRenewedAtEnd(due: Rows, ids: set<int>, now: int)
    requires ids == set e | e in due :: due[e].inboundId
    ensures PartlyRenewed(due, ids, now) == AllRenewed(due, now)
  {
  }

  ghost function LaterOf(t: Table, due: Rows, now: int, done: set<int>): set<Pending> {
    set id, q | id in done && id in t && q in Later(t[id], t[id].clients, due, now) :: q
  }

  lemma RenewStep(t: Table, rows: Rows, done: set<int>, id: int, now: int)
    requires Agreed(t, rows) && id in t && id !in done
    ensures var due, clients := DueOf(rows, now), t[id].clients;
            var db := PartlyRenewed(due, done, now);
            && DistinctEmails(clients) && "" !in db
            && (map e | e in db :: if Among(clients, e) then Renewed(db[e], now) else db[e])
                == PartlyRenewed(due, done + {id}, now)
            && forall c :: c in clients && c.email in due ==>
                             due[c.email].inboundId == id && db[c.email] == due[c.email]
  {
    hide Agreed;
    hide DistinctEmails;
    hide Renewed;
    ListFacts(t, rows, id);
    var due, clients := DueOf(rows, now), t[id].clients;
    forall c | c in clients && c.email in due ensures due[c.email].inboundId == id {
      assert RowFits(rows[c.email], id, c);
    }
  }

  /** One inbound of autoRenewClients. Rows of other inbounds may have been renewed already and are
      no longer due; the loop works on those of this one. */
  method RenewInbound(ghost t: Table, ghost rows: Rows, db: Rows, ghost done: set<int>, ghost id: int, ib: Inbound,
                      now: int)
    returns (list: seq<Client>, db': Rows, later: set<Pending>)
    requires Agreed(t, rows) && id in t && id !in done && ib == t[id]
               && db == PartlyRenewed(DueOf(rows, now), done, now)
    ensures list == WithExpiries(ib.clients, RenewExpiries(DueOf(rows, now), now))
    ensures db' == PartlyRenewed(DueOf(rows, now), done + {id}, now)
    ensures later == Later(ib, ib.clients, DueOf(rows, now), now)
  {
    RenewStep(t, rows, done, id, now);
    ghost var due := DueOf(rows, now);
    list, db', later := RenewClients(ib, db, now);
    SameReschedule(ib.clients, RenewExpiries(db, now), RenewExpiries(due, now));
    SameLater(ib, db, due, now);
  }

  lemma SameLater(ib: Inbound, db: Rows, due: Rows, now: int)
    requires db.Keys == due.Keys && forall c :: c in ib.clients && c.email in due ==> db[c.email] == due[c.email]
    ensures Later(ib, ib.clients, db, now) == Later(ib, ib.clients, due, now)
  {
  }

  /** A pending addition makes the call that adding the client itself would make. */
  predicate Stands(q: Pending, ib: Inbound, c: Client) {
    q.protocol == ib.protocol && q.tag == ib.tag && q.client.email == c.email
        && ApiUser(q.protocol, q.client) == ApiUser(q.protocol, c)
  }

  lemma ReaddedIsPending(s: State, now: int, id: int, c: Client, pending: set<Pending>, ids: set<int>)
    returns (q: Pending)
    requires Consistent(s) && ids == set e | e in DueOf(s.rows, now) :: s.rows[e].inboundId
    requires pending == LaterOf(s.inbounds, DueOf(s.rows, now), now, ids)
    requires Readded(s, now, id, c)
    ensures q in pending && Stands(q, s.inbounds[id], c)
  {
    var due := DueOf(s.rows, now);
    ListFacts(s.inbounds, s.rows, id);
    assert c.email in due && s.rows[c.email].inboundId == id;
    var row := due[c.email];
    q := Pending(s.inbounds[id].protocol, s.inbounds[id].tag, c.(expiry := NextExpiry(row.expiry, row.reset, now)));
    assert q in Later(s.inbounds[id], s.inbounds[id].clients, due, now);
  }

  lemma PendingIsReaddedOne(s: State, now: int, q: Pending, pending: set<Pending>, ids: set<int>)
    returns (id: int, c: Client)
    requires pending == LaterOf(s.inbounds, DueOf(s.rows, now), now, ids) && q in pending
    ensures Readded(s, now, id, c) && Stands(q, s.inbounds[id], c)
    ensures q.client == c.(expiry := NextExpiry(s.rows[c.email].expiry, s.rows[c.email].reset, now))
  {
    var due := DueOf(s.rows, now);
    id :| id in ids && id in s.inbounds && q in Later(s.inbounds[id], s.inbounds[id].clients, due, now);
    c :| c in s.inbounds[id].clients && c.email in due && !due[c.email].enable
      && q.client == c.(expiry := NextExpiry(due[c.email].expiry, due[c.email].reset, now))
      && q.protocol == s.inbounds[id].protocol && q.tag == s.inbounds[id].tag;
  }

  /** Pending additions differ in tag or email, so in the call they make. */
  lemma PendingCallsDiffer(s: State, now: int, q: Pending, p: Pending, pending: set<Pending>, ids: set<int>)
    requires Consistent(s) && pending == LaterOf(s.inbounds, DueOf(s.rows, now), now, ids) && q in pending
               && p in pending
    requires q.tag == p.tag && q.client.email == p.client.email
    ensures q == p
  {
    var id, c := PendingIsReaddedOne(s, now, q, pending, ids);
    var d, k := PendingIsReaddedOne(s, now, p, pending, ids);
    assert id == d;
    assert c.email != "" by { assert !Owned(s.inbounds, ""); }
    PanelAgreement.EmailNamesClient(s.inbounds, id, c, d, k);
  }

  predicate PendingPanics(pending: set<Pending>) {
    exists q :: q in pending && q.protocol.Shadowsocks?
  }

  lemma PendingPanicsIff(s: State, now: int, pending: set<Pending>, ids: set<int>)
    requires Consistent(s) && ids == set e | e in DueOf(s.rows, now) :: s.rows[e].inboundId
    requires pending == LaterOf(s.inbounds, DueOf(s.rows, now), now, ids)
    ensures PendingPanics(pending) <==> RenewalPanics(s, now)
  {
    if q :| q in pending && q.protocol.Shadowsocks? {
      var id, c := PendingIsReaddedOne(s, now, q, pending, ids);
    }
    if RenewalPanics(s, now) {
      var id, c :| id in s.inbounds && c in s.inbounds[id].clients && Readded(s, now, id, c)
        && s.inbounds[id].protocol.Shadowsocks?;
      var q := ReaddedIsPending(s, now, id, c, pending, ids);
    }
  }

  /** The answers with the calls that are never made counted as failing. */
  ghost function OnlyMade(a: Answers, made: set<Pending>): Answers {
    (k: Call) => if k.AddUserCall?
        && !(exists q :: q in made && k == AddUserCall(q.tag, q.client.email)) then Fails else a(k)
  }

  ghost predicate Curbs(b: Answers, a: Answers) {
    forall k :: b(k) == a(k) || b(k) == Fails
  }

  lemma MadeUsers(s: State, now: int, a: Answers, made: set<Pending>, pending: set<Pending>, ids: set<int>, tag: string)
    requires Consistent(s) && pending == LaterOf(s.inbounds, DueOf(s.rows, now), now, ids) && made <= pending
    ensures PendingUsers(pending, OnlyMade(a, made), tag) == PendingUsers(made, a, tag)
  {
    var b := OnlyMade(a, made);
    forall q | q in pending
      ensures b(AddUserCall(q.tag, q.client.email)) != Fails <==>
                q in made && a(AddUserCall(q.tag, q.client.email)) != Fails
    {
      if p :| p in made && AddUserCall(q.tag, q.client.email) == AddUserCall(p.tag, p.client.email) {
        PendingCallsDiffer(s, now, q, p, pending, ids);
      }
    }
  }

  lemma MadeLive(s: State, now: int, a: Answers, made: set<Pending>, pending: set<Pending>, ids: set<int>)
    requires Consistent(s) && pending == LaterOf(s.inbounds, DueOf(s.rows, now), now, ids) && made <= pending
    ensures PendingLive(s.live, pending, OnlyMade(a, made)) == PendingLive(s.live, made, a)
  {
    forall tag | tag in s.live
      ensures PendingLive(s.live, pending, OnlyMade(a, made))[tag] == PendingLive(s.live, made, a)[tag]
    {
      MadeUsers(s, now, a, made, pending, ids, tag);
    }
  }

  lemma StandingUsers(s: State, now: int, a: Answers, pending: set<Pending>, ids: set<int>, tag: string)
    requires Consistent(s) && ids == set e | e in DueOf(s.rows, now) :: s.rows[e].inboundId
    requires pending == LaterOf(s.inbounds, DueOf(s.rows, now), now, ids)
    ensures PendingUsers(pending, a, tag) == ReaddedUsers(s, now, a, tag)
  {
    forall u | u in PendingUsers(pending, a, tag) ensures u in ReaddedUsers(s, now, a, tag) {
      var q :| q in pending && q.tag == tag && q.protocol.HasRawApi() && a(AddUserCall(tag, q.client.email)) != Fails
        && u == ApiUser(q.protocol, q.client);
      var id, c := PendingIsReaddedOne(s, now, q, pending, ids);
    }
    forall u | u in ReaddedUsers(s, now, a, tag) ensures u in PendingUsers(pending, a, tag) {
      var id, c :| id in s.inbounds && c in s.inbounds[id].clients && Readded(s, now, id, c)
          && s.inbounds[id].tag == tag
        && s.inbounds[id].protocol.HasRawApi() && a(AddUserCall(tag, c.email)) != Fails
            && u == ApiUser(s.inbounds[id].protocol, c);
      var q := ReaddedIsPending(s, now, id, c, pending, ids);
    }
  }

  lemma StandingFails(s: State, now: int, a: Answers, pending: set<Pending>, ids: set<int>)
    requires Consistent(s) && ids == set e | e in DueOf(s.rows, now) :: s.rows[e].inboundId
    requires pending == LaterOf(s.inbounds, DueOf(s.rows, now), now, ids)
    ensures PendingFails(s.live, pending, a) <==> RenewNeedsRestart(s, now, a)
  {
    if PendingFails(s.live, pending, a) {
      var q :| q in pending && !AddUserReply(s.live, q.protocol, q.tag, a(AddUserCall(q.tag, q.client.email)));
      var id, c := PendingIsReaddedOne(s, now, q, pending, ids);
    }
    if RenewNeedsRestart(s, now, a) {
      var id, c :| id in s.inbounds && c in s.inbounds[id].clients && Readded(s, now, id, c)
        && !AddUserReply(s.live, s.inbounds[id].protocol, s.inbounds[id].tag,
                         a(AddUserCall(s.inbounds[id].tag, c.email)));
      var q := ReaddedIsPending(s, now, id, c, pending, ids);
    }
  }

  /** What the pending additions come to: the users that PanelSteps adds back. */
  lemma PendingIsReadded(s: State, now: int, a: Answers, pending: set<Pending>, ids: set<int>)
    requires Consistent(s) && ids == set e | e in DueOf(s.rows, now) :: s.rows[e].inboundId
    requires pending == LaterOf(s.inbounds, DueOf(s.rows, now), now, ids)
    ensures forall tag :: PendingUsers(pending, a, tag) == ReaddedUsers(s, now, a, tag)
    ensures PendingFails(s.live, pending, a) <==> RenewNeedsRestart(s, now, a)
  {
    forall tag ensures PendingUsers(pending, a, tag) == ReaddedUsers(s, now, a, tag) {
      StandingUsers(s, now, a, pending, ids, tag);
    }
    StandingFails(s, now, a, pending, ids);
  }

  lemma LaterStep(t: Table, due: Rows, now: int, done: set<int>, id: int)
    requires id in t
    ensures LaterOf(t, due, now, done + {id}) == LaterOf(t, due, now, done) + Later(t[id], t[id].clients, due, now)
  {
  }

  lemma RenewedNone(t: Table, due: Rows, now: int)
    ensures PartlyRenewed(due, {}, now) == due && LaterOf(t, due, now, {}) == {}
    ensures PartlyRescheduled(t, t, RenewExpiries(due, now), {}) && RenewExpiries(due, now).Keys <= due.Keys
  {
  }

  lemma RenewedCore(s: State, now: int, a: Answers, pending: set<Pending>)
    requires forall tag :: PendingUsers(pending, a, tag) == ReaddedUsers(s, now, a, tag)
    requires PendingFails(s.live, pending, a) <==> RenewNeedsRestart(s, now, a)
    ensures var r := PanelSteps.AutoRenewClients(s, now, a);
            r.live == PendingLive(s.live, pending, a) && r.started == s.started
            && r.restart == (s.restart || (!RenewalPanics(s, now) && PendingFails(s.live, pending, a)))
  {
    forall tag | tag in s.live
      ensures PanelSteps.AutoRenewClients(s, now, a).live[tag] == PendingLive(s.live, pending, a)[tag]
    {
    }
  }

  /** What a renewal comes to that has made some of its calls, or all. */
  lemma RenewedBy(s: State, now: int, a: Answers, b: Answers, made: set<Pending>, pending: set<Pending>,
                  ids: set<int>, panicked: bool)
    requires Consistent(s) && ids == set e | e in DueOf(s.rows, now) :: s.rows[e].inboundId
    requires pending == LaterOf(s.inbounds, DueOf(s.rows, now), now, ids) && made <= pending
    requires panicked == RenewalPanics(s, now) && b == (if panicked then OnlyMade(a, made) else a)
               && (!panicked ==> made == pending)
    ensures var r, due := PanelSteps.AutoRenewClients(s, now, b), DueOf(s.rows, now);
            && Curbs(b, a) && r.live == PendingLive(s.live, made, a) && r.started == s.started
            && r.restart == (s.restart || (!panicked && PendingFails(s.live, pending, a)))
            && r.inbounds == Rescheduled(s.inbounds, RenewExpiries(due, now)) && r.rows == s.rows + AllRenewed(due, now)
  {
    PendingIsReadded(s, now, b, pending, ids);
    RenewedTables(s, now, b);
    RenewedCore(s, now, b, pending);
    if panicked {
      MadeLive(s, now, a, made, pending, ids);
    }
  }

  /** The state after the calls of `made`, all of `pending` unless one of those panics. */
  lemma RenewedState(s: State, now: int, a: Answers, due: Rows, pending: set<Pending>, made: set<Pending>,
                     panicked: bool)
    requires Consistent(s) && due == DueOf(s.rows, now)
    requires pending == LaterOf(s.inbounds, due, now, set e | e in due :: due[e].inboundId)
    requires made <= pending && (panicked <==> PendingPanics(pending)) && (!panicked ==> made == pending)
    ensures panicked <==> RenewalPanics(s, now)
    ensures var b := if panicked then OnlyMade(a, made) else a;
            && Curbs(b, a)
            && PanelSteps.AutoRenewClients(s, now, b)
               == State(Rescheduled(s.inbounds, RenewExpiries(due, now)), s.rows + AllRenewed(due, now),
                        PendingLive(s.live, made, a),
                        s.restart || (!panicked && PendingFails(s.live, pending, a)), s.started)
  {
    hide Consistent;
    hide RenewalPanics;
    hide PanelSteps.AutoRenewClients;
    var ids := set e | e in due :: due[e].inboundId;
    PendingPanicsIff(s, now, pending, ids);
    RenewedBy(s, now, a, if panicked then OnlyMade(a, made) else a, made, pending, ids, panicked);
  }

  /** The tables of PanelSteps, written as a bulk update of the due rows. */
  lemma RenewedTables(s: State, now: int, a: Answers)
    ensures var r, due := PanelSteps.AutoRenewClients(s, now, a), DueOf(s.rows, now);
            && RenewExpiries(s.rows, now) == RenewExpiries(due, now)
            && r.inbounds == Rescheduled(s.inbounds, RenewExpiries(due, now))
            && r.rows == s.rows + AllRenewed(due, now)
  {
    var r, due := PanelSteps.AutoRenewClients(s, now, a), DueOf(s.rows, now);
    assert RenewExpiries(s.rows, now) == RenewExpiries(due, now);
    var bulk := s.rows + AllRenewed(due, now);
    forall e | e in s.rows ensures r.rows[e] == bulk[e] {}
  }

  // ---- disabling ----------------------------------------------------------------------------------

  /** Removal of the user with this email from this tag has been asked for and took effect. */
  predicate Gone(s: State, done: set<string>, a: Answers, tag: string, email: string) {
    email in done && email in s.rows && s.rows[email].inboundId in s.inbounds
    && s.inbounds[s.rows[email].inboundId].tag == tag && a(RemoveUserCall(tag, email)) != Fails
  }

  function StruckLive(s: State, done: set<string>, a: Answers): Live {
    map tag | tag in s.live :: (set u | u in s.live[tag] && !Gone(s, done, a, tag, u.email))
  }

  predicate StruckFails(s: State, done: set<string>, a: Answers) {
    exists e :: e in done && e in s.rows && s.rows[e].inboundId in s.inbounds &&
      var tag := s.inbounds[s.rows[e].inboundId].tag;
      !RemoveUserReply(s.live, tag, a(RemoveUserCall(tag, e)))
  }

  lemma StruckNone(s: State, a: Answers)
    ensures StruckLive(s, {}, a) == s.live && !StruckFails(s, {}, a)
  {
    forall tag | tag in s.live ensures StruckLive(s, {}, a)[tag] == s.live[tag] {}
  }

  lemma StruckStep(s: State, done: set<string>, e: string, a: Answers)
    requires e in s.rows && s.rows[e].inboundId in s.inbounds && e !in done
    ensures var tag := s.inbounds[s.rows[e].inboundId].tag;
            var fate := a(RemoveUserCall(tag, e));
            && RemoveUserLive(StruckLive(s, done, a), tag, e, fate) == StruckLive(s, done + {e}, a)
            && (StruckFails(s, done + {e}, a) <==>
                StruckFails(s, done, a) || !RemoveUserReply(StruckLive(s, done, a), tag, fate))
  {
    var tag := s.inbounds[s.rows[e].inboundId].tag;
    var l := RemoveUserLive(StruckLive(s, done, a), tag, e, a(RemoveUserCall(tag, e)));
    forall t | t in s.live ensures l[t] == StruckLive(s, done + {e}, a)[t] {}
  }

  lemma StruckAll(s: State, now: int, a: Answers)
    ensures var found := set e | e in s.rows && InvalidRow(s.rows[e], now) && s.rows[e].inboundId in s.inbounds;
            && PanelSteps.DisableInvalidClients(s, now, a).live == StruckLive(s, found, a)
            && (DisableNeedsRestart(s, now, a) <==> StruckFails(s, found, a))
  {
    var found := set e | e in s.rows && InvalidRow(s.rows[e], now) && s.rows[e].inboundId in s.inbounds;
    var l := PanelSteps.DisableInvalidClients(s, now, a).live;
    forall tag | tag in s.live ensures l[tag] == StruckLive(s, found, a)[tag] {
      forall e ensures Gone(s, found, a, tag, e) <==> Struck(s, now, tag, e) && a(RemoveUserCall(tag, e)) != Fails {}
    }
  }

  function GoneTags(s: State, done: set<int>, a: Answers): set<string> {
    set id | id in done && id in s.inbounds && a(DelInboundCall(s.inbounds[id].tag)) != Fails :: s.inbounds[id].tag
  }

  predicate GoneFails(s: State, done: set<int>, a: Answers) {
    exists id :: id in done && id in s.inbounds
        && !DelInboundReply(s.live, s.inbounds[id].tag, a(DelInboundCall(s.inbounds[id].tag)))
  }

  lemma GoneStep(s: State, done: set<int>, id: int, a: Answers)
    requires id in s.inbounds && id !in done && DistinctTags(s.inbounds)
    ensures var tag := s.inbounds[id].tag;
            var fate := a(DelInboundCall(tag));
            && tag !in GoneTags(s, done, a)
            && GoneTags(s, done + {id}, a) == GoneTags(s, done, a) + (if fate != Fails then {tag} else {})
            && (GoneFails(s, done + {id}, a) <==> GoneFails(s, done, a) || !DelInboundReply(s.live, tag, fate))
  {
  }

  lemma GoneAll(s: State, now: int, a: Answers)
    ensures var found := set id | id in s.inbounds && InvalidInbound(s.inbounds[id], now);
            && PanelSteps.DisableInvalidInbounds(s, now, a).live == s.live - GoneTags(s, found, a)
            && (InboundsNeedRestart(s, now, a) <==> GoneFails(s, found, a))
  {
    var found := set id | id in s.inbounds && InvalidInbound(s.inbounds[id], now);
    assert GoneTags(s, found, a) == set id | id in s.inbounds && InvalidInbound(s.inbounds[id], now)
                                             && a(DelInboundCall(s.inbounds[id].tag)) != Fails :: s.inbounds[id].tag;
  }

  lemma SameConfigs(cfg: map<int, ConfigInbound>, other: map<int, ConfigInbound>)
    requires cfg.Keys == other.Keys && forall id :: id in cfg ==> cfg[id] == other[id]
    ensures cfg == other
  {
    forall id | id in cfg ensures id in other && cfg[id] == other[id] { assert id in cfg.Keys; }
  }

  lemma ConfiguredIds(s: State)
    ensures ConfigOf(s).Keys == set id | id in s.inbounds && InConfig(s.inbounds[id])
  {
  }

  lemma RequestEmailsSnoc(clients: seq<Client>, c: Client)
    ensures RequestEmails(clients + [c]) == RequestEmails(clients) + {c.email}
  {
    assert forall k :: k in clients + [c] <==> k in clients || k == c;
  }

  lemma Member(ids: set<int>) returns (id: int)
    requires ids != {}
    ensures id in ids
  {
    if forall k: int :: k !in ids {
      assert false;
    }
    id :| id in ids;
  }

  lemma FirstWithSnocAny(clients: seq<Client>, c: Client, email: string)
    requires email in RequestEmails(clients + [c])
    ensures FirstWith(clients + [c], email) == if email in RequestEmails(clients) then FirstWith(clients, email) else c
  {
    assert forall k :: k in clients + [c] <==> k in clients || k == c;
    FirstWithPrefix(clients, c, email);
  }

  lemma AddAllRowsAt(rows: Rows, id: int, clients: seq<Client>, c: Client, e: string)
    requires e in AddAllRows(rows, id, clients + [c])
    ensures var done := AddAllRows(rows, id, clients);
            (e in done || e == c.email)
                && AddAllRows(rows, id, clients + [c])[e] == if e in done then done[e] else NewRow(id, c)
  {
    RequestEmailsSnoc(clients, c);
    if e !in rows {
      FirstWithSnocAny(clients, c, e);
    }
  }

  lemma AddAllRowsSnoc(rows: Rows, id: int, clients: seq<Client>, c: Client)
    ensures var done := AddAllRows(rows, id, clients);
            AddAllRows(rows, id, clients + [c]) == if c.email in done then done else done[c.email := NewRow(id, c)]
  {
    var done, all := AddAllRows(rows, id, clients), AddAllRows(rows, id, clients + [c]);
    var expected := if c.email in done then done else done[c.email := NewRow(id, c)];
    AddAllRowsKeys(rows, id, clients, c);
    forall e | e in all ensures all[e] == expected[e] {
      AddAllRowsAt(rows, id, clients, c, e);
    }
  }

  lemma AddAllRowsKeys(rows: Rows, id: int, clients: seq<Client>, c: Client)
    ensures AddAllRows(rows, id, clients + [c]).Keys == AddAllRows(rows, id, clients).Keys + {c.email}
  {
    RequestEmailsSnoc(clients, c);
  }

  class InboundService {
    var inbounds: Table
    var rows: Rows
    var live: Live
    var restart: bool
    var started: map<int, ConfigInbound>

    function St(): State
      reads this
    {
      State(inbounds, rows, live, restart, started)
    }

    constructor (cfg: map<int, ConfigInbound>)
      ensures St() == State(map[], map[], map[], false, cfg)
      ensures Consistent(St())
    {
      inbounds, rows, live, restart, started := map[], map[], map[], false, cfg;
    }

    // ---- API calls --------------------------------------------------------------------------------

    method AddUser(p: Protocol, tag: string, u: User, fate: Fate) returns (ok: bool)
      modifies this`live
      ensures live == AddUserLive(old(live), p, tag, u, fate) && ok == AddUserReply(old(live), p, tag, fate)
    {
      if !p.HasUserApi() {
        return true;
      }
      if tag !in live {
        return false;
      }
      if fate != Fails {
        live := live[tag := live[tag] + {u}];
      }
      return fate == Works;
    }

    method RemoveUser(tag: string, email: string, fate: Fate) returns (ok: bool)
      modifies this`live
      ensures live == RemoveUserLive(old(live), tag, email, fate) && ok == RemoveUserReply(old(live), tag, fate)
    {
      if tag !in live {
        return false;
      }
      if fate != Fails {
        live := live[tag := set u | u in live[tag] && u.email != email];
      }
      return fate == Works;
    }

    // ---- clients ----------------------------------------------------------------------------------

    method CheckEmailsExist(clients: seq<Client>) returns (taken: bool)
      ensures taken == DuplicateEmail(inbounds, clients)
    {
      var all := AllEmails(inbounds);
      var emails: set<string> := {};
      for i := 0 to |clients|
        invariant emails == Emails(clients[..i])
        invariant forall j :: 0 <= j < i ==> !EmailClash(inbounds, clients, j)
      {
        var c := clients[i];
        assert clients[..i + 1] == clients[..i] + [c];
        if c.email != "" {
          if Contains(emails, c.email) {
            var e :| e in emails && Lower(e) == Lower(c.email);
            var k :| k in clients[..i] && k.email != "" && k.email == e;
            var j :| 0 <= j < i && clients[j] == k;
            assert EmailClash(inbounds, clients, i);
            return true;
          }
          if Contains(all, c.email) {
            assert EmailClash(inbounds, clients, i);
            return true;
          }
          forall j | 0 <= j < i && clients[j].email != "" ensures Lower(clients[j].email) != Lower(c.email) {
            assert clients[j] in clients[..i] && clients[j].email in emails;
          }
          emails := emails + {c.email};
        }
      }
      return false;
    }

    method AddClientStat(id: int, c: Client)
      modifies this`rows
      ensures rows == if c.email in old(rows) then old(rows) else old(rows)[c.email := NewRow(id, c)]
    {
      if c.email !in rows {
        rows := rows[c.email := NewRow(id, c)];
      }
    }

    method AddInboundClient(id: int, clients: seq<Client>, a: Answers) returns (ok: bool)
      modifies this
      ensures var r := PanelSteps.AddInboundClient(old(St()), id, clients, a);
              ok == r.Done? && St() == if ok then r.state else old(St())
    {
      hide Emails;
      hide Agreed;
      hide DistinctTags;
      var taken := CheckEmailsExist(clients);
      if taken || id !in inbounds {
        return false;
      }
      var ib := inbounds[id];
      for i := 0 to |clients|
        invariant !MissingKey(ib.protocol, clients[..i])
      {
        assert forall k :: k in clients[..i + 1] <==> k in clients[..i] || k == clients[i];
        if KeyOf(ib.protocol, clients[i]) == "" {
          assert clients[i] in clients;
          return false;
        }
      }
      assert clients[..|clients|] == clients;
      var needRestart := AddClients(id, ib, clients, a);
      inbounds := inbounds[id := ib.(clients := ib.clients + clients)];
      restart := restart || needRestart;
      return true;
    }

    /** The rows and calls of the new clients, one client after the other. */
    method AddClients(id: int, ib: Inbound, clients: seq<Client>, a: Answers) returns (needRestart: bool)
      modifies this`rows, this`live
      ensures rows == AddRows(old(rows), id, clients) && live == AddUsersLive(old(live), ib, clients, a)
      ensures needRestart == AddNeedsRestart(old(live), ib, clients, a)
    {
      hide AddRows;
      hide AddUsersLive;
      hide AddNeedsRestart;
      NothingAddedYet(rows, live, id, ib, a);
      assert clients[..0] == [];
      needRestart := false;
      for i := 0 to |clients|
        invariant rows == AddRows(old(rows), id, clients[..i])
        invariant live == AddUsersLive(old(live), ib, clients[..i], a)
        invariant needRestart == AddNeedsRestart(old(live), ib, clients[..i], a)
      {
        var c := clients[i];
        assert clients[..i + 1] == clients[..i] + [c];
        AddRowsSnoc(old(rows), id, clients[..i], c);
        AddUsersSnoc(old(live), ib, clients[..i], c, a);
        if c.email != "" {
          AddClientStat(id, c);
          if c.enable {
            var added := AddUser(ib.protocol, ib.tag, ApiUser(ib.protocol, c), a(AddUserCall(ib.tag, c.email)));
            if !added {
              needRestart := true;
            }
          }
        } else {
          needRestart := true;
        }
      }
      assert clients[..|clients|] == clients;
    }

    /** The clients under other keys, and the last one under this key. */
    method SplitByKey(p: Protocol, clients: seq<Client>, key: string) returns (rest: seq<Client>, last: Match)
      ensures rest == Others(p, clients, key) && last == LastMatch(p, clients, key)
    {
      rest, last := [], NoMatch;
      for i := 0 to |clients|
        invariant rest == Others(p, clients[..i], key)
        invariant last == LastMatch(p, clients[..i], key)
      {
        var c := clients[i];
        assert clients[..i + 1][..i] == clients[..i];
        if KeyOf(p, c) == key {
          last := Match(c);
        } else {
          rest := rest + [c];
        }
      }
      assert clients[..|clients|] == clients;
    }

    method DelInboundClient(id: int, key: string, a: Answers) returns (ok: bool)
      modifies this
      ensures var r := PanelSteps.DelInboundClient(old(St()), id, key, a);
              ok == r.Done? && St() == if ok then r.state else old(St())
    {
      if id !in inbounds {
        return false;
      }
      var ib := inbounds[id];
      var rest, last := SplitByKey(ib.protocol, ib.clients, key);
      if rest == [] {
        return false;
      }
      if last.Match? && last.client.email != "" {
        var email := last.client.email;
        if email !in rows {
          return false;
        }
        var notDepleted := rows[email].enable;
        rows := rows - {email};
        if last.client.enable && notDepleted {
          var removed := RemoveUser(ib.tag, email, a(RemoveUserCall(ib.tag, email)));
          restart := restart || !removed;
        }
      }
      inbounds := inbounds[id := ib.(clients := rest)];
      return true;
    }

    method UpdateInboundClient(id: int, clients: seq<Client>, key: string, a: Answers) returns (ok: bool)
      modifies this
      ensures var r := PanelSteps.UpdateInboundClient(old(St()), id, clients, key, a);
              ok == r.Done? && St() == if ok then r.state else old(St())
    {
      if id !in inbounds || clients == [] {
        return false;
      }
      var ib, c := inbounds[id], clients[0];
      var k := 0;
      while k < |ib.clients| && KeyOf(ib.protocol, ib.clients[k]) != key
        invariant k <= |ib.clients|
        invariant forall i :: 0 <= i < k ==> KeyOf(ib.protocol, ib.clients[i]) != key
      {
        k := k + 1;
      }
      if KeyOf(ib.protocol, c) == "" || k == |ib.clients| {
        return false;
      }
      var was := ib.clients[k];
      if c.email != "" && c.email != was.email {
        var taken := CheckEmailsExist(clients);
        if taken {
          return false;
        }
      }
      var stored := UpdateClientRow(id, was.email, c);
      if !stored {
        return false;
      }
      inbounds := inbounds[id := ib.(clients := ib.clients[k := c])];
      if was.email == "" {
        restart := true;
      } else {
        UpdateUser(ib, was, c, a);
      }
      return true;
    }

    method UpdateClientRow(id: int, oldEmail: string, c: Client) returns (ok: bool)
      modifies this`rows
      ensures var r := UpdateRows(old(rows), id, oldEmail, c);
              ok == r.RowsDone? && rows == if ok then r.rows else old(rows)
    {
      if c.email == "" {
        rows := rows - {oldEmail};
      } else if oldEmail == "" {
        AddRowsSnoc(rows, id, [], c);
        assert [] + [c] == [c] && Emails([]) == {};
        assert AddRows(rows, id, []) == rows;
        AddClientStat(id, c);
      } else if oldEmail in rows {
        if c.email != oldEmail && c.email in rows {
          return false;
        }
        rows := (rows - {oldEmail})[c.email := EditedRow(rows[oldEmail], c)];
      }
      return true;
    }

    method UpdateUser(ib: Inbound, was: Client, c: Client, a: Answers)
      modifies this`live, this`restart
      ensures St() == UpdateCalls(old(St()), ib, was, c, a)
    {
      if was.enable {
        var removed := RemoveUser(ib.tag, was.email, a(RemoveUserCall(ib.tag, was.email)));
        if !removed {
          restart := true;
        }
      }
      if c.enable {
        var added := AddUser(ib.protocol, ib.tag, ApiUser(ib.protocol, c), a(AddUserCall(ib.tag, c.email)));
        if !added {
          restart := true;
        }
      }
    }

    method ResetClientTraffic(id: int, email: string, a: Answers) returns (ok: bool)
      modifies this
      ensures var r := PanelSteps.ResetClientTraffic(old(St()), id, email, a);
              ok == r.Done? && St() == if ok then r.state else old(St())
    {
      if email !in rows || rows[email].inboundId !in inbounds {
        return false;
      }
      var own := inbounds[rows[email].inboundId].clients;
      if !exists c :: c in own && c.email == email {
        return false;
      }
      var row := rows[email];
      if !row.enable {
        if id !in inbounds {
          return false;
        }
        var ib := inbounds[id];
        for i := 0 to |ib.clients|
          invariant !HasEnabled(ib.clients[..i], email)
          invariant St() == old(St())
        {
          var c := ib.clients[i];
          if c.email == email && c.enable {
            FirstEnabledAt(ib.clients, i, email);
            var added := AddUser(ib.protocol, ib.tag, ApiUser(ib.protocol, c), a(AddUserCall(ib.tag, email)));
            restart := restart || !added;
            rows := rows[email := ClearedRow(row)];
            return true;
          }
          assert forall k :: k in ib.clients[..i + 1] <==> k in ib.clients[..i] || k == c;
        }
        assert ib.clients[..|ib.clients|] == ib.clients;
      }
      rows := rows[email := ClearedRow(row)];
      return true;
    }

    lemma {:induction false} FirstEnabledAt(clients: seq<Client>, i: nat, email: string)
      requires i < |clients| && clients[i].email == email && clients[i].enable && !HasEnabled(clients[..i], email)
      ensures HasEnabled(clients, email) && FirstEnabled(clients, email) == clients[i]
    {
      assert clients[i] in clients;
      if i > 0 {
        assert clients[0] in clients[..i];
        assert clients[1..][..i - 1] == clients[..i][1..];
        assert forall k :: k in clients[1..][..i - 1] ==> k in clients[..i];
        FirstEnabledAt(clients[1..], i - 1, email);
      }
    }

    // ---- the traffic tick -------------------------------------------------------------------------

    method AddInboundTraffic(reports: seq<InboundReport>)
      modifies this`inbounds
      ensures inbounds == PanelSteps.AddInboundTraffic(old(inbounds), reports)
    {
      NoInboundReports(inbounds);
      for i := 0 to |reports|
        invariant inbounds == PanelSteps.AddInboundTraffic(old(inbounds), reports[..i])
      {
        var r := reports[i];
        assert reports[..i + 1] == reports[..i] + [r];
        AddInboundSnoc(old(inbounds), reports[..i], r);
        if r.isInbound {
          inbounds := map id | id in inbounds ::
            if inbounds[id].tag == r.tag
            then inbounds[id].(up := inbounds[id].up + r.up, down := inbounds[id].down + r.down,
                               allTime := inbounds[id].allTime + r.up + r.down)
            else inbounds[id];
        }
      }
      assert reports[..|reports|] == reports;
    }

    /** adjustTraffics on the rows that a report has found; the tables keep the old rows meanwhile. */
    method AdjustTraffics(hits: Rows, now: int) returns (db: Rows)
      requires Consistent(St()) && hits.Keys <= rows.Keys && forall e :: e in hits ==> hits[e] == rows[e]
      modifies this`inbounds
      ensures inbounds == Rescheduled(old(inbounds), Starts(hits, now))
      ensures db == AllStarted(hits, now)
    {
      hide Agreed;
      hide DistinctTags;
      db := hits;
      ghost var before, kept, next := inbounds, rows, Starts(hits, now);
      var ids := set e | e in hits && hits[e].expiry < 0 :: hits[e].inboundId;
      var todo := ids;
      ghost var done := {};
      OwnInboundsExist(before, kept, hits);
      AdjustedNone(hits, now);
      while todo != {}
        invariant done !! todo && done + todo == ids
        invariant PartlyRescheduled(before, inbounds, next, done)
        invariant db == Adjusted(hits, done, now)
        decreases todo
      {
        var id :| id in todo;
        PartlyStep(before, inbounds, next, done, id);
        var list;
        list, db := AdjustInbound(before, kept, hits, db, done, id, inbounds[id].clients, now);
        inbounds := inbounds[id := inbounds[id].(clients := list)];
        done, todo := done + {id}, todo - {id};
      }
      assert done == ids;
      AllRescheduled(before, kept, inbounds, next, ids);
      AdjustedAll(hits, ids, now);
    }

    method AddClientTraffic(reports: seq<Report>, now: int)
      requires Consistent(St())
      modifies this
      ensures St() == PanelSteps.AddClientTraffic(old(St()), reports, now)
    {
      hide Agreed;
      hide DistinctTags;
      ghost var s := St();
      var hits := Hits(rows, reports);
      if hits == map[] {
        assert forall e :: e in rows && Reported(reports, e) ==> e in hits;
        NoHits(s, reports, now);
        return;
      }
      var db := AdjustTraffics(hits, now);
      CreditRows(db, reports);
      HitsStart(s, reports, now);
      CreditedAll(s, reports, now);
    }

    method CreditRows(db: Rows, reports: seq<Report>)
      requires db.Keys <= rows.Keys
      modifies this`rows
      ensures rows == Credited(old(rows), db, reports)
    {
      var todo := db.Keys;
      while todo != {}
        invariant todo <= db.Keys
        invariant rows == map e | e in old(rows) ::
                    if e in db && e !in todo then Credit(db[e], FirstReport(reports, e)) else old(rows)[e]
        decreases todo
      {
        var e :| e in todo;
        rows := rows[e := Credit(db[e], FirstReport(reports, e))];
        todo := todo - {e};
      }
    }

    /** AddUser as renewal calls it, with the settings client itself: for Shadowsocks the assertion of
        its cipher panics before anything is sent. */
    method AddRaw(q: Pending, fate: Fate) returns (ok: bool, panicked: bool)
      modifies this`live
      ensures panicked == q.protocol.Shadowsocks?
      ensures panicked ==> live == old(live)
      ensures !panicked ==> live == AddUserLive(old(live), q.protocol, q.tag, ApiUser(q.protocol, q.client), fate)
                            && ok == AddUserReply(old(live), q.protocol, q.tag, fate)
    {
      if q.protocol.Shadowsocks? {
        return false, true;
      }
      ok := AddUser(q.protocol, q.tag, ApiUser(q.protocol, q.client), fate);
      panicked := false;
    }

    /** The calls of renewal, in the order in which the inbounds come; a panic ends them. */
    method AddPending(pending: set<Pending>, a: Answers)
      returns (needRestart: bool, panicked: bool, ghost made: set<Pending>)
      modifies this`live
      ensures panicked <==> PendingPanics(pending)
      ensures made <= pending && live == PendingLive(old(live), made, a)
      ensures !panicked ==> made == pending && needRestart == PendingFails(old(live), pending, a)
    {
      var todo := pending;
      ghost var before := live;
      NothingPending(before, a);
      assert pending - todo == {};
      needRestart, panicked, made := false, false, {};
      while todo != {}
        invariant todo <= pending && made == pending - todo && !PendingPanics(made)
        invariant live == PendingLive(before, made, a)
        invariant needRestart == PendingFails(before, made, a)
        decreases todo
      {
        var q :| q in todo;
        var added;
        added, panicked := AddRaw(q, a(AddUserCall(q.tag, q.client.email)));
        if panicked {
          return;
        }
        PendingLiveStep(before, made, q, a);
        PendingFailsStep(before, made, q, a);
        if !added {
          needRestart := true;
        }
        made, todo := made + {q}, todo - {q};
        assert made == pending - todo;
      }
      assert made == pending;
    }

    /** `b` are the answers with the calls that a panic prevents counted as failing. */
    method AutoRenewClients(now: int, a: Answers) returns (panicked: bool, ghost b: Answers)
      requires Consistent(St())
      modifies this
      ensures panicked <==> RenewalPanics(old(St()), now)
      ensures Curbs(b, a) && (!panicked ==> b == a)
      ensures St() == PanelSteps.AutoRenewClients(old(St()), now, b)
    {
      hide Consistent;
      hide RenewalPanics;
      hide PanelSteps.AutoRenewClients;
      hide DueOf;
      hide LaterOf;
      hide AllRenewed;
      hide Rescheduled;
      hide PendingLive;
      hide PendingPanics;
      hide PendingFails;
      ghost var s := St();
      var due := DueOf(rows, now);
      var db, pending := RenewInbounds(due, now);
      rows := rows + db;
      ghost var made;
      var needRestart;
      needRestart, panicked, made := AddPending(pending, a);
      b := if panicked then OnlyMade(a, made) else a;
      RenewedState(s, now, a, due, pending, made, panicked);
      if panicked {
        return;
      }
      if needRestart {
        restart := true;
      }
    }

    /** The loops of autoRenewClients over the inbounds of due rows. Both tables are saved before any
        call to the core is made. */
    method RenewInbounds(due: Rows, now: int) returns (db: Rows, pending: set<Pending>)
      requires Consistent(St()) && due == DueOf(rows, now)
      modifies this`inbounds
      ensures inbounds == Rescheduled(old(inbounds), RenewExpiries(due, now))
      ensures db == AllRenewed(due, now)
      ensures pending == LaterOf(old(inbounds), due, now, set e | e in due :: due[e].inboundId)
    {
      hide Agreed;
      hide DistinctTags;
      hide PartlyRescheduled;
      hide PartlyRenewed;
      hide LaterOf;
      hide Rescheduled;
      hide AllRenewed;
      hide RenewExpiries;
      ghost var before, kept, next := inbounds, rows, RenewExpiries(due, now);
      var ids := set e | e in due :: due[e].inboundId;
      var todo := ids;
      db, pending := due, {};
      ghost var done := {};
      OwnInboundsExist(before, kept, due);
      RenewedNone(before, due, now);
      while todo != {}
        invariant done !! todo && done + todo == ids
        invariant PartlyRescheduled(before, inbounds, next, done)
        invariant db == PartlyRenewed(due, done, now)
        invariant pending == LaterOf(before, due, now, done)
        decreases todo
      {
        var id :| id in todo;
        PartlyStep(before, inbounds, next, done, id);
        LaterStep(before, due, now, done, id);
        var list, later;
        list, db, later := RenewInbound(before, kept, db, done, id, inbounds[id], now);
        inbounds := inbounds[id := inbounds[id].(clients := list)];
        pending := pending + later;
        done, todo := done + {id}, todo - {id};
      }
      assert done == ids;
      AllRescheduled(before, kept, inbounds, next, ids);
      AllRenewedAtEnd(due, ids, now);
    }

    method DisableInvalidClients(now: int, a: Answers)
      modifies this
      ensures St() == PanelSteps.DisableInvalidClients(old(St()), now, a)
    {
      ghost var s := St();
      var found := set e | e in rows && InvalidRow(rows[e], now) && rows[e].inboundId in inbounds;
      StruckAll(s, now, a);
      RemoveFound(found, a);
      rows := map e | e in rows :: if InvalidRow(rows[e], now) then rows[e].(enable := false) else rows[e];
    }

    /** One call for each invalid row. */
    method RemoveFound(found: set<string>, a: Answers)
      requires forall e :: e in found ==> e in rows && rows[e].inboundId in inbounds
      modifies this`live, this`restart
      ensures live == StruckLive(old(St()), found, a) && restart == (old(restart) || StruckFails(old(St()), found, a))
    {
      hide StruckLive;
      hide StruckFails;
      hide RemoveUserLive;
      hide RemoveUserReply;
      ghost var s := St();
      var todo, done: set<string> := found, {};
      StruckNone(s, a);
      while todo != {}
        invariant done !! todo && done + todo == found
        invariant live == StruckLive(s, done, a) && restart == (s.restart || StruckFails(s, done, a))
        decreases todo
      {
        var e :| e in todo;
        StruckStep(s, done, e, a);
        var tag := inbounds[rows[e].inboundId].tag;
        var removed := RemoveUser(tag, e, a(RemoveUserCall(tag, e)));
        if !removed {
          restart := true;
        }
        done, todo := done + {e}, todo - {e};
      }
      assert done == found;
    }

    method DelInboundCore(tag: string, fate: Fate) returns (ok: bool)
      modifies this`live
      ensures live == (if fate != Fails then old(live) - {tag} else old(live))
                && ok == DelInboundReply(old(live), tag, fate)
    {
      ok := tag in live && fate == Works;
      if fate != Fails {
        live := live - {tag};
      }
    }

    method DisableInvalidInbounds(now: int, a: Answers)
      requires DistinctTags(inbounds)
      modifies this
      ensures St() == PanelSteps.DisableInvalidInbounds(old(St()), now, a)
    {
      ghost var s := St();
      var found := set id | id in inbounds && InvalidInbound(inbounds[id], now);
      GoneAll(s, now, a);
      DropInbounds(found, a);
      inbounds := map id | id in inbounds ::
        if InvalidInbound(inbounds[id], now) then inbounds[id].(enable := false) else inbounds[id];
    }

    method DropInbounds(ids: set<int>, a: Answers)
      requires DistinctTags(inbounds) && ids <= inbounds.Keys
      modifies this`live, this`restart
      ensures live == old(live) - GoneTags(old(St()), ids, a)
      ensures restart == (old(restart) || GoneFails(old(St()), ids, a))
    {
      ghost var s := St();
      var todo := ids;
      ghost var done: set<int> := {};
      while todo != {}
        invariant done !! todo && done + todo == ids
        invariant live == s.live - GoneTags(s, done, a) && restart == (s.restart || GoneFails(s, done, a))
        decreases todo
      {
        ghost var _ := Member(todo);
        var id :| id in todo;
        GoneStep(s, done, id, a);
        var tag := inbounds[id].tag;
        var gone := DelInboundCore(tag, a(DelInboundCall(tag)));
        if !gone {
          restart := true;
        }
        done, todo := done + {id}, todo - {id};
      }
      assert done == ids;
    }

    /** Whether the tick panics, and the answers as far as calls were made. */
    method AddTraffic(ins: seq<InboundReport>, reports: seq<Report>, t: Clock, a: Answers)
      returns (panicked: bool, ghost b: Answers)
      requires Consistent(St())
      modifies this
      ensures panicked <==> TickPanics(old(St()), ins, reports, t)
      ensures Curbs(b, a) && (!panicked ==> b == a)
      ensures St() == PanelSteps.AddTraffic(old(St()), ins, reports, t, b)
    {
      AddInboundTraffic(ins);
      InboundTrafficKeepsConsistent(old(St()), ins);
      ghost var s1 := St();
      ClientTrafficKeepsConsistent(s1, reports, t.start);
      AddClientTraffic(reports, t.start);
      assert St() == BeforeRenewal(old(St()), ins, reports, t.start);
      hide BeforeRenewal;
      panicked, b := LimitTraffic(t, a);
    }

    /** Renewal, then the two disabling steps. */
    method LimitTraffic(t: Clock, a: Answers) returns (panicked: bool, ghost b: Answers)
      requires Consistent(St())
      modifies this
      ensures panicked <==> RenewalPanics(old(St()), t.renew)
      ensures Curbs(b, a) && (!panicked ==> b == a)
      ensures var renewed := PanelSteps.AutoRenewClients(old(St()), t.renew, b);
              St() == if panicked then renewed
                      else PanelSteps.DisableInvalidInbounds(
                             PanelSteps.DisableInvalidClients(renewed, t.clients, a), t.inbounds, a)
    {
      hide Agreed;
      hide RenewalPanics;
      ghost var s := St();
      panicked, b := AutoRenewClients(t.renew, a);
      hide PanelSteps.AutoRenewClients;
      if panicked {
        return;
      }
      RenewKeepsConsistent(s, t.renew, a);
      DisableInvalidClients(t.clients, a);
      DisableKeepsConsistent(PanelSteps.AutoRenewClients(s, t.renew, a), t.clients, t.inbounds, a);
      DisableInvalidInbounds(t.inbounds, a);
    }

    // ---- whole inbounds ---------------------------------------------------------------------------

    /** `id` is the key the database gives the new row. */
    method AddInbound(id: int, ib: Inbound, portTaken: bool, a: Answers) returns (ok: bool)
      requires id !in inbounds && ib.protocol.RunsInXray()
      modifies this
      ensures var r := PanelSteps.AddInbound(old(St()), id, ib, portTaken, a);
              ok == r.Done? && St() == if ok then r.state else old(St())
    {
      if portTaken {
        return false;
      }
      var taken := CheckEmailsExist(ib.clients);
      if taken || MissingKey(ib.protocol, ib.clients) || (exists k :: k in inbounds && inbounds[k].tag == ib.tag) {
        return false;
      }
      inbounds := inbounds[id := ib];
      for i := 0 to |ib.clients|
        invariant rows == AddAllRows(old(rows), id, ib.clients[..i])
        invariant inbounds == old(inbounds)[id := ib] && live == old(live)
          && restart == old(restart) && started == old(started)
      {
        assert ib.clients[..i + 1] == ib.clients[..i] + [ib.clients[i]];
        AddAllRowsSnoc(old(rows), id, ib.clients[..i], ib.clients[i]);
        AddClientStat(id, ib.clients[i]);
      }
      assert ib.clients[..|ib.clients|] == ib.clients;
      if ib.enable {
        var fate := a(AddInboundCall(ib.tag));
        restart := restart || fate != Works || ib.tag in live;
        if fate != Fails && ib.tag !in live {
          live := live[ib.tag := RawUsers(ib)];
        }
      }
      return true;
    }

    method DelInbound(id: int, a: Answers) returns (ok: bool)
      modifies this
      ensures var r := PanelSteps.DelInbound(old(St()), id, a);
              ok == r.Done? && St() == if ok then r.state else old(St())
    {
      if id !in inbounds {
        return false;
      }
      var ib := inbounds[id];
      if ib.enable {
        var gone := DelInboundCore(ib.tag, a(DelInboundCall(ib.tag)));
        restart := restart || !gone;
      }
      rows := map e | e in rows && rows[e].inboundId != id :: rows[e];
      inbounds := inbounds - {id};
      return true;
    }

    // ---- configuration and restart ----------------------------------------------------------------

    /** The configuration of one inbound: the stats come in the order the database gives them. */
    method InboundConfig(id: int) returns (c: ConfigInbound)
      requires Consistent(St()) && id in inbounds && InConfig(inbounds[id])
      ensures c == ConfigOf(St())[id]
    {
      ghost var s := St();
      var ib := inbounds[id];
      var stats: seq<XrayConfig.Stat>, todo := [], rows.Keys;
      while todo != {}
        invariant todo <= rows.Keys
        invariant XrayConfig.Disabled(stats) == Depleted(rows, id) - todo
        decreases todo
      {
        var e :| e in todo;
        if rows[e].inboundId == id {
          XrayConfig.DisabledSnoc(stats, XrayConfig.Stat(e, rows[e].enable));
          stats := stats + [XrayConfig.Stat(e, rows[e].enable)];
        }
        todo := todo - {e};
      }
      ListFacts(inbounds, rows, id);
      forall e | e in XrayConfig.Disabled(stats) ensures XrayConfig.OccursOnceAtMost(ib.clients, e) {}
      XrayConfig.DistinctIsRemovable(ib.clients, stats);
      assert XrayConfig.Disabled(stats) == Depleted(rows, id);
      var cells := new Client[|ib.clients|](i requires 0 <= i < |ib.clients| => ib.clients[i]);
      assert cells[..] == ib.clients;
      var config := XrayConfig.FilterClients(cells, stats);
      assert St() == s && config == XrayConfig.ConfigClients(ib.clients, Depleted(s.rows, id));
      return ConfigInbound(ib.tag, ib.protocol, config);
    }

    /** GetXrayConfig: a tick without reports, whose wish for a restart is dropped, then the filter. */
    method GetXrayConfig(t: Clock, a: Answers) returns (cfg: map<int, ConfigInbound>, panicked: bool, ghost b: Answers)
      requires Consistent(St())
      modifies this
      ensures panicked <==> TickPanics(old(St()), [], [], t)
      ensures Curbs(b, a) && (!panicked ==> b == a)
      ensures St() == PanelSteps.AddTraffic(old(St()), [], [], t, b).(restart := old(restart)) && Consistent(St())
      ensures !panicked ==> cfg == ConfigOf(St())
    {
      hide PanelSteps.AddTraffic;
      hide TickPanics;
      hide Agreed;
      hide DistinctTags;
      ghost var s := St();
      var asked := restart;
      panicked, b := AddTraffic([], [], t, a);
      TickKeepsConsistent(s, [], [], t, b);
      restart := asked;
      cfg := map[];
      if panicked {
        return;
      }
      cfg := BuildConfig();
    }

    method BuildConfig() returns (cfg: map<int, ConfigInbound>)
      requires Consistent(St())
      ensures cfg == ConfigOf(St())
    {
      hide Agreed;
      hide DistinctTags;
      hide ConfigOf;
      ghost var s := St();
      ConfiguredIds(s);
      cfg := map[];
      var all := set id | id in inbounds && InConfig(inbounds[id]);
      var todo := all;
      ghost var done: set<int> := {};
      while todo != {}
        invariant St() == s && done !! todo && done + todo == all
        invariant cfg.Keys == done && forall id :: id in done ==> cfg[id] == ConfigOf(s)[id]
        decreases todo
      {
        ghost var _ := Member(todo);
        var id :| id in todo;
        var c := InboundConfig(id);
        cfg := cfg[id := c];
        done, todo := done + {id}, todo - {id};
      }
      assert done == all;
      SameConfigs(cfg, ConfigOf(s));
    }

    method RestartXray(force: bool, t: Clock, a: Answers) returns (panicked: bool, ghost b: Answers)
      requires Consistent(St())
      modifies this
      ensures panicked <==> TickPanics(old(St()), [], [], t)
      ensures Curbs(b, a) && (!panicked ==> b == a)
      ensures St() == PanelSteps.RestartXray(old(St()), force, t, b) && Consistent(St())
    {
      hide PanelSteps.AddTraffic;
      hide TickPanics;
      hide Agreed;
      hide DistinctTags;
      var cfg;
      cfg, panicked, b := GetXrayConfig(t, a);
      if panicked || (!force && cfg == started && !restart) {
        return;
      }
      live, started := Load(cfg), cfg;
    }

    method CheckRestartJob(t: Clock, a: Answers) returns (panicked: bool, ghost b: Answers)
      requires Consistent(St())
      modifies this
      ensures panicked <==> old(restart) && TickPanics(old(St()), [], [], t)
      ensures Curbs(b, a) && (!panicked ==> b == a)
      ensures St() == PanelSteps.CheckRestartJob(old(St()), t, b) && Consistent(St())
    {
      hide PanelSteps.RestartXray;
      hide Agreed;
      hide DistinctTags;
      panicked, b := false, a;
      if restart {
        restart := false;
        PanelTick.PanicsIgnoresFlag(old(St()), St(), t);
        panicked, b := RestartXray(false, t, a);
      }
    }
  }
}
