/**
 The settings lists and the traffic rows describe the same clients. Each step is shown to keep
 `Consistent`, or shown to keep it exactly under a condition that a caller can check.
 */
module PanelConsistency {
  import opened PanelModel
  import opened PanelSteps

  predicate At(t: Table, id: int, i: int) {
    id in t && 0 <= i < |t[id].clients|
  }

  function ClientAt(t: Table, id: int, i: int): Client
    requires At(t, id, i)
  {
    t[id].clients[i]
  }

  predicate HasEmail(t: Table, id: int, i: int, email: string) {
    At(t, id, i) && ClientAt(t, id, i).email == email
  }

  /** Two positions hold the same email up to case. */
  predicate Clash(t: Table, id: int, i: int, id': int, i': int) {
    At(t, id, i) && At(t, id', i') && ClientAt(t, id, i).email != "" &&
    Lower(ClientAt(t, id, i).email) == Lower(ClientAt(t, id', i').email)
  }

  /** Non-empty emails are unique over all inbounds, ignoring case. */
  ghost predicate UniqueEmails(t: Table) {
    forall id, i, id', i' :: Clash(t, id, i, id', i') ==> id == id' && i == i'
  }

  predicate RowFits(r: Row, id: int, c: Client) {
    r.inboundId == id && r.expiry == c.expiry && r.total == c.total && r.reset == c.reset
  }

  predicate ClientHasRow(rows: Rows, id: int, c: Client) {
    c.email != "" ==> c.email in rows && RowFits(rows[c.email], id, c)
  }

  /** Every client with an email has its row, in its own inbound and with the same limits. */
  ghost predicate RowForClient(t: Table, rows: Rows) {
    forall id, i :: At(t, id, i) ==> ClientHasRow(rows, id, ClientAt(t, id, i))
  }

  ghost predicate Owned(t: Table, email: string) {
    email != "" && exists id, i :: HasEmail(t, id, i, email)
  }

  ghost predicate ClientForRow(t: Table, rows: Rows) {
    forall e :: e in rows ==> Owned(t, e)
  }

  ghost predicate Agreed(t: Table, rows: Rows) {
    UniqueEmails(t) && RowForClient(t, rows) && ClientForRow(t, rows)
  }

  ghost predicate Consistent(s: State) {
    Agreed(s.inbounds, s.rows) && DistinctTags(s.inbounds)
  }

  lemma LowerKeepsEmpty(a: string, b: string)
    requires Lower(a) == Lower(b)
    ensures a == "" <==> b == ""
  {
    assert |a| == |Lower(a)| && |b| == |Lower(b)|;
  }

  /** A client with an email is the only one with that email. */
  lemma EmailIsAtOnePlace(t: Table, id: int, i: int, id': int, i': int, email: string)
    requires UniqueEmails(t) && email != "" && HasEmail(t, id, i, email) && HasEmail(t, id', i', email)
    ensures id == id' && i == i'
  {
    assert Clash(t, id, i, id', i');
  }

  // ---- AddInboundClient ---------------------------------------------------------------------------

  function Appended(t: Table, id: int, clients: seq<Client>): Table
    requires id in t
  {
    t[id := t[id].(clients := t[id].clients + clients)]
  }

  lemma NewEmailsAreFresh(t: Table, clients: seq<Client>, id: int, i: int, j: int)
    requires !DuplicateEmail(t, clients)
    requires At(t, id, i) && 0 <= j < |clients| && clients[j].email != ""
    ensures Lower(ClientAt(t, id, i).email) != Lower(clients[j].email)
  {
    assert !EmailClash(t, clients, j);
    var c := ClientAt(t, id, i);
    assert c in t[id].clients && c.email in AllEmails(t);
  }

  lemma NewEmailsAreDistinct(t: Table, clients: seq<Client>, j: int, k: int)
    requires !DuplicateEmail(t, clients)
    requires 0 <= j < |clients| && 0 <= k < |clients| && clients[j].email != ""
    requires Lower(clients[j].email) == Lower(clients[k].email)
    ensures j == k
  {
    assert !EmailClash(t, clients, j) && !EmailClash(t, clients, k);
    LowerKeepsEmpty(clients[j].email, clients[k].email);
  }

  lemma AppendedAt(t: Table, id: int, clients: seq<Client>, d: int, i: int)
    requires id in t && At(Appended(t, id, clients), d, i)
    ensures var n := |t[id].clients|;
            var r := Appended(t, id, clients);
            if At(t, d, i) then ClientAt(r, d, i) == ClientAt(t, d, i)
            else d == id && 0 <= i - n < |clients| && ClientAt(r, d, i) == clients[i - n]
  {
  }

  lemma AppendKeepsUnique(t: Table, id: int, clients: seq<Client>)
    requires UniqueEmails(t) && id in t && !DuplicateEmail(t, clients)
    ensures UniqueEmails(Appended(t, id, clients))
  {
    var r, n := Appended(t, id, clients), |t[id].clients|;
    forall d, i, d', i' | Clash(r, d, i, d', i') ensures d == d' && i == i' {
      LowerKeepsEmpty(ClientAt(r, d, i).email, ClientAt(r, d', i').email);
      AppendedAt(t, id, clients, d, i);
      AppendedAt(t, id, clients, d', i');
      if At(t, d, i) && At(t, d', i') {
        assert Clash(t, d, i, d', i');
      } else if At(t, d, i) {
        NewEmailsAreFresh(t, clients, d, i, i' - n);
      } else if At(t, d', i') {
        NewEmailsAreFresh(t, clients, d', i', i - n);
      } else {
        NewEmailsAreDistinct(t, clients, i - n, i' - n);
      }
    }
  }

  lemma AddedRow(t: Table, rows: Rows, id: int, clients: seq<Client>, j: int)
    requires Agreed(t, rows) && !DuplicateEmail(t, clients)
    requires 0 <= j < |clients| && clients[j].email != ""
    ensures var e := clients[j].email;
            e !in rows && e in AddRows(rows, id, clients) && AddRows(rows, id, clients)[e] == NewRow(id, clients[j])
  {
    var c := clients[j];
    assert c in clients && c.email in Emails(clients);
    if c.email in rows {
      var o, k :| HasEmail(t, o, k, c.email);
      NewEmailsAreFresh(t, clients, o, k, j);
    }
    var f := FirstWith(clients, c.email);
    var k :| 0 <= k < |clients| && clients[k] == f;
    NewEmailsAreDistinct(t, clients, j, k);
  }

  lemma AppendKeepsAgreed(t: Table, rows: Rows, id: int, clients: seq<Client>)
    requires Agreed(t, rows) && id in t && !DuplicateEmail(t, clients)
    ensures Agreed(Appended(t, id, clients), AddRows(rows, id, clients))
  {
    var r, rows', n := Appended(t, id, clients), AddRows(rows, id, clients), |t[id].clients|;
    AppendKeepsUnique(t, id, clients);
    forall d, i | At(r, d, i) ensures ClientHasRow(rows', d, ClientAt(r, d, i)) {
      AppendedAt(t, id, clients, d, i);
      if !At(t, d, i) && ClientAt(r, d, i).email != "" {
        AddedRow(t, rows, id, clients, i - n);
      }
    }
    forall e | e in rows' ensures Owned(r, e) {
      if e in rows {
        var d, i :| HasEmail(t, d, i, e);
        assert HasEmail(r, d, i, e);
      } else {
        var c :| c in clients && c.email == e;
        var k :| 0 <= k < |clients| && clients[k] == c;
        assert HasEmail(r, id, n + k, e);
      }
    }
  }

  lemma AddKeepsConsistent(s: State, id: int, clients: seq<Client>, a: Answers)
    requires Consistent(s) && AddInboundClient(s, id, clients, a).Done?
    ensures Consistent(AddInboundClient(s, id, clients, a).state)
  {
    AppendKeepsAgreed(s.inbounds, s.rows, id, clients);
  }

  // ---- DelInboundClient ---------------------------------------------------------------------------

  /** The emails under a key, each of which has a row. */
  function KeyedEmails(p: Protocol, clients: seq<Client>, key: string): set<string> {
    set c | c in clients && KeyOf(p, c) == key && c.email != "" :: c.email
  }

  function Trimmed(t: Table, id: int, key: string): Table
    requires id in t
  {
    t[id := t[id].(clients := Others(t[id].protocol, t[id].clients, key))]
  }

  /** Each remaining client was there before, under another key, and the order is kept. */
  lemma {:induction false} OthersPositions(p: Protocol, clients: seq<Client>, key: string) returns (f: seq<nat>)
    ensures |f| == |Others(p, clients, key)|
    ensures forall i :: 0 <= i < |f| ==> f[i] < |clients| && clients[f[i]] == Others(p, clients, key)[i]
    ensures forall i, j :: 0 <= i < j < |f| ==> f[i] < f[j]
  {
    if clients == [] {
      f := [];
    } else {
      f := OthersPositions(p, clients[..|clients| - 1], key);
      if KeyOf(p, clients[|clients| - 1]) != key {
        f := f + [|clients| - 1];
      }
    }
  }

  lemma TrimKeepsUnique(t: Table, id: int, key: string)
    requires UniqueEmails(t) && id in t
    ensures UniqueEmails(Trimmed(t, id, key))
  {
    var r := Trimmed(t, id, key);
    var f := OthersPositions(t[id].protocol, t[id].clients, key);
    forall d, i, d', i' | Clash(r, d, i, d', i') ensures d == d' && i == i' {
      var i0 := if d == id then f[i] else i;
      var i1 := if d' == id then f[i'] else i';
      assert ClientAt(t, d, i0) == ClientAt(r, d, i) && ClientAt(t, d', i1) == ClientAt(r, d', i');
      assert Clash(t, d, i0, d', i1);
    }
  }

  /** After trimming, an email still has its client unless it was under the key. */
  lemma TrimmedOwned(t: Table, id: int, key: string, email: string)
    requires UniqueEmails(t) && id in t && Owned(t, email)
    ensures Owned(Trimmed(t, id, key), email) <==> email !in KeyedEmails(t[id].protocol, t[id].clients, key)
  {
    var r, p := Trimmed(t, id, key), t[id].protocol;
    var d, i :| HasEmail(t, d, i, email);
    var c := ClientAt(t, d, i);
    if email in KeyedEmails(p, t[id].clients, key) {
      var k :| 0 <= k < |t[id].clients| && KeyOf(p, t[id].clients[k]) == key && t[id].clients[k].email == email;
      EmailIsAtOnePlace(t, d, i, id, k, email);
      if d', i' :| HasEmail(r, d', i', email) {
        var x := ClientAt(r, d', i');
        assert x in t[d'].clients;
        var k' :| 0 <= k' < |t[d'].clients| && t[d'].clients[k'] == x;
        EmailIsAtOnePlace(t, d, i, d', k', email);
        assert false;
      }
    } else if d == id {
      assert c in Others(p, t[id].clients, key);
      var k :| 0 <= k < |r[id].clients| && r[id].clients[k] == c;
      assert HasEmail(r, id, k, email);
    } else {
      assert HasEmail(r, d, i, email);
    }
  }

  /** Which rows go when the clients under a key go: the row of the last one, if it has an email. */
  function RowsAfterDel(rows: Rows, m: Match): Rows {
    if m.Match? && m.client.email != "" then rows - {m.client.email} else rows
  }

  predicate OneRowUnderKey(ib: Inbound, key: string) {
    match LastMatch(ib.protocol, ib.clients, key)
    case NoMatch => true
    case Match(c) => KeyedEmails(ib.protocol, ib.clients, key) <= {c.email}
  }

  lemma TrimKeepsRowForClient(t: Table, rows: Rows, id: int, key: string)
    requires Agreed(t, rows) && id in t
    ensures RowForClient(Trimmed(t, id, key), RowsAfterDel(rows, LastMatch(t[id].protocol, t[id].clients, key)))
  {
    var r, p := Trimmed(t, id, key), t[id].protocol;
    var m := LastMatch(p, t[id].clients, key);
    if m.Match? && m.client.email != "" {
      assert m.client.email in KeyedEmails(p, t[id].clients, key);
    }
    forall d, i | At(r, d, i) ensures ClientHasRow(RowsAfterDel(rows, m), d, ClientAt(r, d, i)) {
      var x := ClientAt(r, d, i);
      assert x in t[d].clients;
      var k :| 0 <= k < |t[d].clients| && t[d].clients[k] == x;
      assert At(t, d, k) && ClientAt(t, d, k) == x;
      if x.email != "" && m.Match? && m.client.email == x.email {
        assert HasEmail(r, d, i, x.email) && HasEmail(t, d, k, x.email);
        TrimmedOwned(t, id, key, x.email);
        assert false;
      }
    }
  }

  lemma TrimKeepsClientForRowIff(t: Table, rows: Rows, id: int, key: string)
    requires Agreed(t, rows) && id in t
    ensures ClientForRow(Trimmed(t, id, key), RowsAfterDel(rows, LastMatch(t[id].protocol, t[id].clients, key)))
            <==> OneRowUnderKey(t[id], key)
  {
    var r, p := Trimmed(t, id, key), t[id].protocol;
    var m := LastMatch(p, t[id].clients, key);
    var keyed := KeyedEmails(p, t[id].clients, key);
    var rows' := RowsAfterDel(rows, m);
    forall e | e in rows' ensures Owned(r, e) <==> e !in keyed {
      TrimmedOwned(t, id, key, e);
    }
    forall e | e in keyed ensures e in rows && e != "" {
      var k :| 0 <= k < |t[id].clients| && t[id].clients[k].email == e;
      assert At(t, id, k) && ClientAt(t, id, k).email == e;
    }
  }

  /** Deleting by key keeps the copies consistent exactly when every email under that key is the
      one whose row is deleted: with a shared key the other rows stay behind as orphans. */
  lemma DelKeepsConsistentIff(s: State, id: int, key: string, a: Answers)
    requires Consistent(s) && DelInboundClient(s, id, key, a).Done?
    ensures Consistent(DelInboundClient(s, id, key, a).state) <==> OneRowUnderKey(s.inbounds[id], key)
  {
    hide Owned;
    var r := DelInboundClient(s, id, key, a).state;
    assert r.inbounds == Trimmed(s.inbounds, id, key);
    assert r.rows == RowsAfterDel(s.rows, LastMatch(s.inbounds[id].protocol, s.inbounds[id].clients, key));
    TrimKeepsUnique(s.inbounds, id, key);
    TrimKeepsRowForClient(s.inbounds, s.rows, id, key);
    TrimKeepsClientForRowIff(s.inbounds, s.rows, id, key);
  }

  // ---- UpdateInboundClient ------------------------------------------------------------------------

  function Replaced(t: Table, id: int, k: nat, c: Client): Table
    requires At(t, id, k)
  {
    t[id := t[id].(clients := t[id].clients[k := c])]
  }

  /** No other client has the email of `c`. */
  ghost predicate FitsAt(t: Table, id: int, k: nat, c: Client) {
    c.email != "" ==>
      forall d, i :: At(t, d, i) && Lower(ClientAt(t, d, i).email) == Lower(c.email) ==> d == id && i == k
  }

  lemma ReplaceKeepsUnique(t: Table, id: int, k: nat, c: Client)
    requires UniqueEmails(t) && At(t, id, k) && FitsAt(t, id, k, c)
    ensures UniqueEmails(Replaced(t, id, k, c))
  {
    var r := Replaced(t, id, k, c);
    forall d, i, d', i' | Clash(r, d, i, d', i') ensures d == d' && i == i' {
      LowerKeepsEmpty(ClientAt(r, d, i).email, ClientAt(r, d', i').email);
      assert At(t, d, i) && At(t, d', i');
      if !(d == id && i == k) && !(d' == id && i' == k) {
        assert Clash(t, d, i, d', i');
      }
    }
  }

  lemma UpdatedRow(t: Table, rows: Rows, id: int, k: nat, c: Client)
    requires Agreed(t, rows) && At(t, id, k) && FitsAt(t, id, k, c)
    ensures var was := ClientAt(t, id, k);
            var u := UpdateRows(rows, id, was.email, c);
            && u.RowsDone?
            && u.rows.Keys == rows.Keys - {was.email} + (if c.email == "" then {} else {c.email})
            && ClientHasRow(u.rows, id, c)
            && forall e :: e in rows && e != was.email && e != c.email ==> u.rows[e] == rows[e]
  {
    var was := ClientAt(t, id, k);
    if c.email != "" && c.email in rows {
      var d, i :| HasEmail(t, d, i, c.email);
      assert d == id && i == k;
    }
    assert Emails([c]) == if c.email == "" then {} else {c.email};
    if was.email == "" {
      assert rows - {was.email} == rows by { assert !Owned(t, ""); }
    }
  }

  lemma ReplaceKeepsAgreed(t: Table, rows: Rows, id: int, k: nat, c: Client)
    requires Agreed(t, rows) && At(t, id, k) && FitsAt(t, id, k, c)
    ensures UpdateRows(rows, id, ClientAt(t, id, k).email, c).RowsDone?
    ensures Agreed(Replaced(t, id, k, c), UpdateRows(rows, id, ClientAt(t, id, k).email, c).rows)
  {
    var r, was := Replaced(t, id, k, c), ClientAt(t, id, k);
    var rows' := UpdateRows(rows, id, was.email, c).rows;
    ReplaceKeepsUnique(t, id, k, c);
    UpdatedRow(t, rows, id, k, c);
    forall d, i | At(r, d, i) ensures ClientHasRow(rows', d, ClientAt(r, d, i)) {
      assert At(t, d, i);
      var x := ClientAt(r, d, i);
      if !(d == id && i == k) && x.email != "" {
        assert ClientHasRow(rows, d, x);
        assert x.email != was.email by {
          if x.email == was.email { EmailIsAtOnePlace(t, d, i, id, k, x.email); assert false; }
        }
      }
    }
    forall e | e in rows' ensures Owned(r, e) {
      if e == c.email {
        assert HasEmail(r, id, k, e);
      } else {
        var d, i :| HasEmail(t, d, i, e);
        assert HasEmail(r, d, i, e);
      }
    }
  }

  lemma UpdateKeepsConsistent(s: State, id: int, clients: seq<Client>, key: string, a: Answers)
    requires Consistent(s) && UpdateInboundClient(s, id, clients, key, a).Done?
    ensures Consistent(UpdateInboundClient(s, id, clients, key, a).state)
  {
    var ib, c := s.inbounds[id], clients[0];
    var k := FirstIndex(ib.protocol, ib.clients, key);
    EditFits(s.inbounds, id, k, clients);
    ReplaceKeepsAgreed(s.inbounds, s.rows, id, k, c);
  }

  lemma EditFits(t: Table, id: int, k: nat, clients: seq<Client>)
    requires UniqueEmails(t) && At(t, id, k) && clients != []
    requires clients[0].email == "" || clients[0].email == ClientAt(t, id, k).email || !DuplicateEmail(t, clients)
    ensures FitsAt(t, id, k, clients[0])
  {
    var c, was := clients[0], ClientAt(t, id, k);
    if c.email != "" {
      forall d, i | At(t, d, i) && Lower(ClientAt(t, d, i).email) == Lower(c.email) ensures d == id && i == k {
        if c.email == was.email {
          assert Clash(t, id, k, d, i);
        } else {
          NewEmailsAreFresh(t, clients, d, i, 0);
          assert false;
        }
      }
    }
  }

  // ---- steps that keep every client and row where it is ------------------------------------------

  predicate SamePlace(c: Client, d: Client) {
    c.email == d.email && c.total == d.total && c.reset == d.reset
  }

  predicate SameRow(r: Row, q: Row) {
    r.inboundId == q.inboundId && r.total == q.total && r.reset == q.reset
  }

  /** The settings and rows after expiries have been rescheduled alike in both copies. */
  ghost predicate SameShape(t: Table, rows: Rows, t': Table, rows': Rows) {
    && t'.Keys == t.Keys && rows'.Keys == rows.Keys
    && (forall id :: id in t ==> t'[id].tag == t[id].tag && |t'[id].clients| == |t[id].clients|)
    && (forall id, i :: At(t, id, i) && At(t', id, i) ==> SamePlace(ClientAt(t, id, i), ClientAt(t', id, i)))
    && (forall e :: e in rows && e in rows' ==> SameRow(rows[e], rows'[e]))
    && (forall id, i :: At(t, id, i) && At(t', id, i) ==>
          SameMove(rows, rows', ClientAt(t, id, i), ClientAt(t', id, i)))
  }

  predicate SameMove(rows: Rows, rows': Rows, c: Client, d: Client) {
    c.email in rows && c.email in rows' && c.expiry == rows[c.email].expiry ==> d.expiry == rows'[c.email].expiry
  }

  lemma SameShapeKeepsAgreed(t: Table, rows: Rows, t': Table, rows': Rows)
    requires Agreed(t, rows) && DistinctTags(t) && SameShape(t, rows, t', rows')
    ensures Agreed(t', rows') && DistinctTags(t')
  {
    forall id, i, id', i' | Clash(t', id, i, id', i') ensures id == id' && i == i' {
      assert At(t, id, i) && At(t, id', i');
      assert Clash(t, id, i, id', i');
    }
    forall d, i | At(t', d, i) ensures ClientHasRow(rows', d, ClientAt(t', d, i)) {
      assert At(t, d, i);
      assert ClientHasRow(rows, d, ClientAt(t, d, i));
    }
    forall e | e in rows' ensures Owned(t', e) {
      var d, i :| HasEmail(t, d, i, e);
      assert At(t', d, i) && HasEmail(t', d, i, e);
    }
  }

  lemma RescheduledShape(t: Table, rows: Rows, next: map<string, int>, rows': Rows)
    requires rows'.Keys == rows.Keys && next.Keys <= rows.Keys
    requires forall e :: e in rows ==> SameRow(rows[e], rows'[e])
    requires forall e :: e in rows ==> rows'[e].expiry == if e in next then next[e] else rows[e].expiry
    ensures SameShape(t, rows, Rescheduled(t, next), rows')
  {
  }

  lemma InboundTrafficKeepsConsistent(s: State, ins: seq<InboundReport>)
    requires Consistent(s)
    ensures Consistent(s.(inbounds := AddInboundTraffic(s.inbounds, ins)))
  {
    SameShapeKeepsAgreed(s.inbounds, s.rows, AddInboundTraffic(s.inbounds, ins), s.rows);
  }

  lemma ClientTrafficKeepsConsistent(s: State, reports: seq<Report>, now: int)
    requires Consistent(s)
    ensures Consistent(AddClientTraffic(s, reports, now))
  {
    var r := AddClientTraffic(s, reports, now);
    RescheduledShape(s.inbounds, s.rows, StartExpiries(s.rows, reports, now), r.rows);
    SameShapeKeepsAgreed(s.inbounds, s.rows, r.inbounds, r.rows);
  }

  lemma RenewKeepsConsistent(s: State, now: int, a: Answers)
    requires Consistent(s)
    ensures Consistent(AutoRenewClients(s, now, a))
  {
    var r := AutoRenewClients(s, now, a);
    RescheduledShape(s.inbounds, s.rows, RenewExpiries(s.rows, now), r.rows);
    SameShapeKeepsAgreed(s.inbounds, s.rows, r.inbounds, r.rows);
  }

  lemma DisableClientsKeepsConsistent(s: State, now: int, a: Answers)
    requires Consistent(s)
    ensures Consistent(DisableInvalidClients(s, now, a))
  {
    SameShapeKeepsAgreed(s.inbounds, s.rows, s.inbounds, DisableInvalidClients(s, now, a).rows);
  }

  lemma DisableInboundsKeepsConsistent(s: State, now: int, a: Answers)
    requires Consistent(s)
    ensures Consistent(DisableInvalidInbounds(s, now, a))
  {
    SameShapeKeepsAgreed(s.inbounds, s.rows, DisableInvalidInbounds(s, now, a).inbounds, s.rows);
  }

  lemma DisableKeepsConsistent(s: State, now: int, now': int, a: Answers)
    requires Consistent(s)
    ensures Consistent(DisableInvalidClients(s, now, a)) && Consistent(DisableInvalidInbounds(s, now', a))
  {
    hide Consistent;
    DisableClientsKeepsConsistent(s, now, a);
    DisableInboundsKeepsConsistent(s, now', a);
  }

  /** A tick moves expiries in both copies at once and leaves the rest of the shape alone. */
  lemma TickKeepsConsistent(s: State, ins: seq<InboundReport>, reports: seq<Report>, t: Clock, a: Answers)
    requires Consistent(s)
    ensures Consistent(AddTraffic(s, ins, reports, t, a))
  {
    var s1 := s.(inbounds := AddInboundTraffic(s.inbounds, ins));
    InboundTrafficKeepsConsistent(s, ins);
    var s2 := AddClientTraffic(s1, reports, t.start);
    ClientTrafficKeepsConsistent(s1, reports, t.start);
    var s3 := AutoRenewClients(s2, t.renew, a);
    RenewKeepsConsistent(s2, t.renew, a);
    DisableKeepsConsistent(s3, t.clients, t.clients, a);
    DisableKeepsConsistent(DisableInvalidClients(s3, t.clients, a), t.inbounds, t.inbounds, a);
  }

  lemma ResetKeepsConsistent(s: State, id: int, email: string, a: Answers)
    requires Consistent(s) && ResetClientTraffic(s, id, email, a).Done?
    ensures Consistent(ResetClientTraffic(s, id, email, a).state)
  {
    hide DistinctTags;
    var rows := s.rows[email := ClearedRow(s.rows[email])];
    assert ResetClientTraffic(s, id, email, a).state.rows == rows;
    SameShapeKeepsAgreed(s.inbounds, s.rows, s.inbounds, rows);
  }

  lemma ResetAllKeepsConsistent(s: State, id: int, byController: bool)
    requires Consistent(s)
    ensures Consistent(ResetAllClientTraffics(s, id, byController))
  {
    SameShapeKeepsAgreed(s.inbounds, s.rows, s.inbounds, ResetAllClientTraffics(s, id, byController).rows);
  }

  // ---- whole inbounds -----------------------------------------------------------------------------

  lemma RemovalKeepsAgreed(t: Table, rows: Rows, id: int)
    requires Agreed(t, rows) && id in t
    ensures Agreed(t - {id}, map e | e in rows && rows[e].inboundId != id :: rows[e])
  {
    var r, rows' := t - {id}, map e | e in rows && rows[e].inboundId != id :: rows[e];
    forall d, i, d', i' | Clash(r, d, i, d', i') ensures d == d' && i == i' {
      assert Clash(t, d, i, d', i');
    }
    forall d, i | At(r, d, i) ensures ClientHasRow(rows', d, ClientAt(r, d, i)) {
      assert At(t, d, i) && ClientHasRow(rows, d, ClientAt(t, d, i));
    }
    forall e | e in rows' ensures Owned(r, e) {
      assert Owned(t, e);
      var d, i :| HasEmail(t, d, i, e);
      assert ClientHasRow(rows, d, ClientAt(t, d, i));
      assert HasEmail(r, d, i, e);
    }
  }

  lemma DelInboundKeepsConsistent(s: State, id: int, a: Answers)
    requires Consistent(s) && DelInbound(s, id, a).Done?
    ensures Consistent(DelInbound(s, id, a).state)
  {
    RemovalKeepsAgreed(s.inbounds, s.rows, id);
  }

  lemma EmptyInboundKeepsAgreed(t: Table, rows: Rows, id: int, ib: Inbound)
    requires Agreed(t, rows) && id !in t && ib.clients == []
    ensures Agreed(t[id := ib], rows)
  {
    var r := t[id := ib];
    forall d, i, d', i' | Clash(r, d, i, d', i') ensures d == d' && i == i' {
      assert Clash(t, d, i, d', i');
    }
    forall d, i | At(r, d, i) ensures ClientHasRow(rows, d, ClientAt(r, d, i)) {
      assert At(t, d, i);
    }
    forall e | e in rows ensures Owned(r, e) {
      var d, i :| HasEmail(t, d, i, e);
      assert HasEmail(r, d, i, e);
    }
  }

  lemma EmptyInboundKeepsDuplicates(t: Table, id: int, ib: Inbound, clients: seq<Client>)
    requires id !in t && ib.clients == [] && !DuplicateEmail(t, clients)
    ensures !DuplicateEmail(t[id := ib], clients)
  {
    var r := t[id := ib];
    forall e | e in AllEmails(r) ensures e in AllEmails(t) {
      var d, c :| d in r && c in r[d].clients && c.email == e;
      assert d in t && c in t[d].clients;
    }
    forall i | 0 <= i < |clients| ensures !EmailClash(r, clients, i) {
      assert !EmailClash(t, clients, i);
    }
  }

  /** A new inbound whose clients all have emails keeps the copies consistent. */
  lemma AddInboundKeepsConsistent(s: State, id: int, ib: Inbound, portTaken: bool, a: Answers)
    requires Consistent(s) && id !in s.inbounds && ib.protocol.RunsInXray()
    requires AddInbound(s, id, ib, portTaken, a).Done? && forall c :: c in ib.clients ==> c.email != ""
    ensures Consistent(AddInbound(s, id, ib, portTaken, a).state)
  {
    var r := AddInbound(s, id, ib, portTaken, a).state;
    var empty := ib.(clients := []);
    var t := s.inbounds[id := empty];
    EmptyInboundKeepsAgreed(s.inbounds, s.rows, id, empty);
    EmptyInboundKeepsDuplicates(s.inbounds, id, empty, ib.clients);
    AppendKeepsAgreed(t, s.rows, id, ib.clients);
    assert [] + ib.clients == ib.clients;
    assert Appended(t, id, ib.clients) == r.inbounds;
    assert Emails(ib.clients) == RequestEmails(ib.clients);
    assert AddRows(s.rows, id, ib.clients) == r.rows;
  }

  /** A new inbound keeps the copies consistent exactly when all its clients have emails. */
  lemma AddInboundKeepsConsistentIff(s: State, id: int, ib: Inbound, portTaken: bool, a: Answers)
    requires Consistent(s) && id !in s.inbounds && ib.protocol.RunsInXray()
    requires AddInbound(s, id, ib, portTaken, a).Done?
    ensures Consistent(AddInbound(s, id, ib, portTaken, a).state) <==> forall c :: c in ib.clients ==> c.email != ""
  {
    var r := AddInbound(s, id, ib, portTaken, a).state;
    if c :| c in ib.clients && c.email == "" {
      assert "" in r.rows;
      assert !Owned(r.inbounds, "");
    } else {
      AddInboundKeepsConsistent(s, id, ib, portTaken, a);
    }
  }

  lemma RestartKeepsConsistent(s: State, force: bool, t: Clock, a: Answers)
    requires Consistent(s)
    ensures Consistent(RestartXray(s, force, t, a))
  {
    TickKeepsConsistent(s, [], [], t, a);
    hide AddTraffic;
    hide TickPanics;
    hide ConfigOf;
    hide Agreed;
    hide DistinctTags;
  }
}
