/**
 When each request of the panel is carried out, and all that it then changes, said of the tables and
 the core themselves. A rejected request changes nothing.
 */
module PanelRequests {
  import opened PanelModel
  import opened PanelSteps
  import opened PanelConsistency
  import opened PanelTick
  import opened PanelRuns

  // ---- letters, keys and users --------------------------------------------------------------------

  /** The same character, or the two forms of one of the 26 letters. */
  predicate SameLetter(a: char, b: char) {
    a == b || ('A' <= a <= 'Z' && b as int == a as int + 32) || ('A' <= b <= 'Z' && a as int == b as int + 32)
  }

  predicate SameLetters(a: string, b: string) {
    |a| == |b| && forall i :: 0 <= i < |a| ==> SameLetter(a[i], b[i])
  }

  /** Emails are compared without regard to case. */
  lemma LowerIffSameLetters(a: string, b: string)
    ensures Lower(a) == Lower(b) <==> SameLetters(a, b)
  {
    if Lower(a) == Lower(b) {
      forall i | 0 <= i < |a| ensures SameLetter(a[i], b[i]) {
        assert Lower(a)[i] == Lower(b)[i];
      }
    }
    if SameLetters(a, b) {
      forall i | 0 <= i < |a| ensures Lower(a)[i] == Lower(b)[i] {
        assert SameLetter(a[i], b[i]);
      }
    }
  }

  /** `key` names the client inside an inbound of this protocol. */
  predicate IsNamed(p: Protocol, c: Client, key: string) {
    if p.Trojan? then c.password == key else if p.Shadowsocks? then c.email == key else c.id == key
  }

  lemma NamedIffKey(p: Protocol, c: Client, key: string)
    ensures IsNamed(p, c, key) <==> KeyOf(p, c) == key
  {
  }

  /** What authenticates the client in the core: only VLESS has flows. */
  predicate IsUserOf(u: User, p: Protocol, c: Client) {
    && u.email == c.email
    && (p.Trojan? || p.Shadowsocks? ==> u.credential == c.password)
    && (!p.Trojan? && !p.Shadowsocks? ==> u.credential == c.id)
    && u.flow == if p == VLess then c.flow else ""
  }

  lemma UserOfIffApi(u: User, p: Protocol, c: Client)
    ensures IsUserOf(u, p, c) <==> u == ApiUser(p, c)
  {
  }

  /** The user a configuration makes: the same, except that it turns one flow into another. */
  lemma LoadedIsUserOf(p: Protocol, c: Client)
    ensures IsUserOf(LoadedUser(p, c), p, c.(flow := if c.flow == "xtls-rprx-vision-udp443" then "xtls-rprx-vision"
                                                     else c.flow))
  {
  }

  // ---- calls to the core --------------------------------------------------------------------------

  /** AddUser speaks to the core for four protocols and reports success for all others. A good reply
      means the user is there; a lost one may mean it too. */
  lemma AddUserCalls(live: Live, p: Protocol, tag: string, u: User, fate: Fate)
    ensures var r := AddUserLive(live, p, tag, u, fate);
            && r.Keys == live.Keys && (forall x :: x in live && x != tag ==> r[x] == live[x])
            && (p == VMess || p == VLess || p == Trojan || p == Shadowsocks ==>
                  (AddUserReply(live, p, tag, fate) <==> tag in live && fate == Works)
                  && (tag in live ==> r[tag] == if fate == Fails then live[tag] else live[tag] + {u}))
            && (p == OtherXray || p == AmneziaWG || p == NativeWG ==> AddUserReply(live, p, tag, fate) && r == live)
  {
  }

  lemma RemoveUserCalls(live: Live, tag: string, email: string, fate: Fate)
    ensures var r := RemoveUserLive(live, tag, email, fate);
            && r.Keys == live.Keys && (forall x :: x in live && x != tag ==> r[x] == live[x])
            && (RemoveUserReply(live, tag, fate) <==> tag in live && fate == Works)
            && (tag in live ==> forall u :: u in r[tag] <==> u in live[tag] && (fate == Fails || u.email != email))
  {
  }

  // ---- AddInboundClient ---------------------------------------------------------------------------

  /** No email of the request is taken, by a stored client or by an earlier one of the request. */
  predicate FreshEmails(t: Table, clients: seq<Client>) {
    forall i :: 0 <= i < |clients| ==> !Taken(t, clients, i)
  }

  predicate Taken(t: Table, clients: seq<Client>, i: int)
    requires 0 <= i < |clients|
  {
    clients[i].email != ""
    && ((exists d, x :: d in t && x in t[d].clients && SameLetters(x.email, clients[i].email))
        || exists j :: 0 <= j < i && SameLetters(clients[j].email, clients[i].email))
  }

  lemma FreshIffNoDuplicate(t: Table, clients: seq<Client>)
    ensures FreshEmails(t, clients) <==> !DuplicateEmail(t, clients)
  {
    forall i | 0 <= i < |clients|
      ensures EmailClash(t, clients, i) <==> Taken(t, clients, i)
    {
      ClashIsSameLetters(t, clients, i);
    }
  }

  lemma ClashIsSameLetters(t: Table, clients: seq<Client>, i: int)
    requires 0 <= i < |clients|
    ensures EmailClash(t, clients, i) <==> Taken(t, clients, i)
  {
    hide Lower;
    var email := clients[i].email;
    forall e: string ensures Lower(e) == Lower(email) <==> SameLetters(e, email) { LowerIffSameLetters(e, email); }
    if Contains(AllEmails(t), email) {
      var e :| e in AllEmails(t) && Lower(e) == Lower(email);
      var d, x :| d in t && x in t[d].clients && x.email == e;
    }
    if d, x :| d in t && x in t[d].clients && SameLetters(x.email, email) {
      assert x.email in AllEmails(t);
    }
  }

  lemma AddAcceptedIff(s: State, id: int, clients: seq<Client>, a: Answers)
    ensures AddInboundClient(s, id, clients, a).Done? <==>
              id in s.inbounds && FreshEmails(s.inbounds, clients)
              && forall c :: c in clients ==> !IsNamed(s.inbounds[id].protocol, c, "")
  {
    FreshIffNoDuplicate(s.inbounds, clients);
    hide DuplicateEmail;
    hide FreshEmails;
  }

  /** The clients go to the end of the list, and each email without a row gets one with nothing counted. */
  lemma AddChangesTables(s: State, id: int, clients: seq<Client>, a: Answers, c: Client)
    requires AddInboundClient(s, id, clients, a).Done?
    ensures var r := AddInboundClient(s, id, clients, a).state;
            && r.inbounds == s.inbounds[id := s.inbounds[id].(clients := s.inbounds[id].clients + clients)]
            && r.started == s.started
            && (forall e :: e in s.rows ==> e in r.rows && r.rows[e] == s.rows[e])
            && (forall e :: e in r.rows && e !in s.rows ==> e != "" && exists x :: x in clients && x.email == e)
            && (c in clients && c.email != "" && c.email !in s.rows ==>
                  c.email in r.rows
                  && r.rows[c.email] == Row(id, c.enable, 0, 0, 0, c.expiry, c.total, c.reset))
  {
    var r := AddInboundClient(s, id, clients, a).state;
    if c in clients && c.email != "" && c.email !in s.rows {
      FirstIsOnly(s.inbounds, clients, c);
      assert c.email in Emails(clients);
    }
    hide DuplicateEmail;
    forall e | e in r.rows && e !in s.rows ensures e != "" && exists x :: x in clients && x.email == e {
      assert e in Emails(clients);
    }
  }

  lemma FirstIsOnly(t: Table, clients: seq<Client>, c: Client)
    requires !DuplicateEmail(t, clients) && c in clients && c.email != ""
    ensures FirstWith(clients, c.email) == c
  {
    var f := FirstWith(clients, c.email);
    var i :| 0 <= i < |clients| && clients[i] == c;
    var j :| 0 <= j < |clients| && clients[j] == f;
    assert !EmailClash(t, clients, i) && !EmailClash(t, clients, j);
  }

  /** The user of an enabled client with an email, whose call took effect. */
  predicate Gained(ib: Inbound, clients: seq<Client>, a: Answers, u: User) {
    exists c :: c in clients && c.email != "" && c.enable && a(AddUserCall(ib.tag, c.email)) != Fails
                && IsUserOf(u, ib.protocol, c)
  }

  /** The core is not told of the client, or does not answer well. */
  predicate IsLost(live: Live, ib: Inbound, c: Client, a: Answers) {
    c.email == "" || (c.enable && !AddUserReply(live, ib.protocol, ib.tag, a(AddUserCall(ib.tag, c.email))))
  }

  /** A restart is asked for exactly when a client has no email or a call for an enabled one is not
      answered well; the core gains the users of the other enabled ones, under the inbound's tag. */
  lemma AddChangesCore(s: State, id: int, clients: seq<Client>, a: Answers, tag: string, u: User)
    requires AddInboundClient(s, id, clients, a).Done?
    ensures var r, ib := AddInboundClient(s, id, clients, a).state, s.inbounds[id];
            && (r.restart <==> s.restart || exists c :: c in clients && IsLost(s.live, ib, c, a))
            && r.live.Keys == s.live.Keys
            && (tag in s.live ==>
                  (u in r.live[tag] <==> u in s.live[tag] || (tag == ib.tag && ib.protocol.HasUserApi()
                                                              && Gained(ib, clients, a, u))))
  {
    var ib := s.inbounds[id];
    forall c ensures IsUserOf(u, ib.protocol, c) <==> u == ApiUser(ib.protocol, c) { UserOfIffApi(u, ib.protocol, c); }
    hide DuplicateEmail;
    hide ApiUser;
    hide IsUserOf;
  }

  // ---- DelInboundClient ---------------------------------------------------------------------------

  /** `c` is the last client of the list with this key. */
  predicate IsLastNamed(ib: Inbound, key: string, c: Client) {
    exists k :: 0 <= k < |ib.clients| && ib.clients[k] == c && IsNamed(ib.protocol, c, key)
                && forall j :: k < j < |ib.clients| ==> !IsNamed(ib.protocol, ib.clients[j], key)
  }

  lemma {:induction false} LastMatchIsLast(p: Protocol, clients: seq<Client>, key: string) returns (k: nat)
    requires LastMatch(p, clients, key).Match?
    ensures k < |clients| && clients[k] == LastMatch(p, clients, key).client && IsNamed(p, clients[k], key)
    ensures forall j :: k < j < |clients| ==> !IsNamed(p, clients[j], key)
  {
    var most, last := clients[..|clients| - 1], clients[|clients| - 1];
    NamedIffKey(p, last, key);
    if KeyOf(p, last) == key {
      k := |clients| - 1;
    } else {
      k := LastMatchIsLast(p, most, key);
      assert forall j :: 0 <= j < |most| ==> clients[j] == most[j];
    }
  }

  lemma LastNamedIffMatch(ib: Inbound, key: string, c: Client)
    ensures IsLastNamed(ib, key, c) <==> LastMatch(ib.protocol, ib.clients, key) == Match(c)
  {
    forall x ensures IsNamed(ib.protocol, x, key) <==> KeyOf(ib.protocol, x) == key {
      NamedIffKey(ib.protocol, x, key);
    }
    if LastMatch(ib.protocol, ib.clients, key).Match? {
      var k := LastMatchIsLast(ib.protocol, ib.clients, key);
    }
  }

  /** The last client of an inbound cannot be deleted, and one with an email must have its row. */
  lemma DelAcceptedIff(s: State, id: int, key: string, a: Answers)
    ensures DelInboundClient(s, id, key, a).Done? <==>
              id in s.inbounds
              && (exists c :: c in s.inbounds[id].clients && !IsNamed(s.inbounds[id].protocol, c, key))
              && forall c :: IsLastNamed(s.inbounds[id], key, c) ==> c.email == "" || c.email in s.rows
  {
    if id in s.inbounds {
      var ib := s.inbounds[id];
      forall c ensures IsLastNamed(ib, key, c) <==> LastMatch(ib.protocol, ib.clients, key) == Match(c) {
        LastNamedIffMatch(ib, key, c);
      }
      forall c ensures IsNamed(ib.protocol, c, key) <==> KeyOf(ib.protocol, c) == key {
        NamedIffKey(ib.protocol, c, key);
      }
      hide IsLastNamed;
      hide IsNamed;
      hide LastMatch;
      if Others(ib.protocol, ib.clients, key) != [] {
        assert Others(ib.protocol, ib.clients, key)[0] in Others(ib.protocol, ib.clients, key);
      }
    }
  }

  /** The clients under other keys, in order. */
  function Unnamed(p: Protocol, clients: seq<Client>, key: string): seq<Client> {
    if clients == [] then []
    else (if IsNamed(p, clients[0], key) then [] else [clients[0]]) + Unnamed(p, clients[1..], key)
  }

  lemma {:induction false} UnnamedSnoc(p: Protocol, most: seq<Client>, last: Client, key: string)
    ensures Unnamed(p, most + [last], key) == Unnamed(p, most, key) + if IsNamed(p, last, key) then [] else [last]
  {
    hide IsNamed;
    if most == [] {
      assert ([] + [last])[1..] == [];
    } else {
      UnnamedSnoc(p, most[1..], last, key);
      assert (most + [last])[1..] == most[1..] + [last];
    }
  }

  lemma {:induction false} OthersIsUnnamed(p: Protocol, clients: seq<Client>, key: string)
    ensures Others(p, clients, key) == Unnamed(p, clients, key)
  {
    if clients != [] {
      var most, last := clients[..|clients| - 1], clients[|clients| - 1];
      OthersIsUnnamed(p, most, key);
      assert most + [last] == clients;
      UnnamedSnoc(p, most, last, key);
      NamedIffKey(p, last, key);
      hide IsNamed;
    }
  }

  /** All clients under the key leave the list, and nothing else of the settings changes. */
  lemma DelChangesList(s: State, id: int, key: string, a: Answers)
    requires DelInboundClient(s, id, key, a).Done?
    ensures var r, ib := DelInboundClient(s, id, key, a).state, s.inbounds[id];
            && r.inbounds == s.inbounds[id := ib.(clients := Unnamed(ib.protocol, ib.clients, key))]
            && r.started == s.started
  {
    hide KeyOf;
    hide RemoveUserLive;
    hide IsNamed;
    hide Unnamed;
    OthersIsUnnamed(s.inbounds[id].protocol, s.inbounds[id].clients, key);
    hide LastMatch;
  }

  /** Of the rows only that of the last client under the key goes, and of the core only its user, if
      the settings and the row had it enabled. */
  lemma DelChangesRow(s: State, id: int, key: string, a: Answers, c: Client)
    requires DelInboundClient(s, id, key, a).Done? && IsLastNamed(s.inbounds[id], key, c)
    ensures var r, ib := DelInboundClient(s, id, key, a).state, s.inbounds[id];
            var fate := a(RemoveUserCall(ib.tag, c.email));
            && (c.email != "" ==> c.email in s.rows) && r.rows == (if c.email == "" then s.rows else s.rows - {c.email})
            && if c.email != "" && c.enable && s.rows[c.email].enable
               then r.live == RemoveUserLive(s.live, ib.tag, c.email, fate)
                    && (r.restart <==> s.restart || !RemoveUserReply(s.live, ib.tag, fate))
               else r.live == s.live && r.restart == s.restart
  {
    LastNamedIffMatch(s.inbounds[id], key, c);
    hide IsLastNamed;
    hide Others;
    hide RemoveUserLive;
  }

  lemma DelChangesNothingElse(s: State, id: int, key: string, a: Answers)
    requires DelInboundClient(s, id, key, a).Done?
    requires forall c :: c in s.inbounds[id].clients ==> !IsNamed(s.inbounds[id].protocol, c, key)
    ensures var r := DelInboundClient(s, id, key, a).state;
            r.rows == s.rows && r.live == s.live && r.restart == s.restart
  {
    var ib := s.inbounds[id];
    if LastMatch(ib.protocol, ib.clients, key).Match? {
      NamedIffKey(ib.protocol, LastMatch(ib.protocol, ib.clients, key).client, key);
    }
    hide Others;
  }

  // ---- UpdateInboundClient ------------------------------------------------------------------------

  /** `k` is the place of the first client of the list with this key. */
  predicate IsFirstNamed(ib: Inbound, key: string, k: nat) {
    k < |ib.clients| && IsNamed(ib.protocol, ib.clients[k], key)
    && forall j :: 0 <= j < k ==> !IsNamed(ib.protocol, ib.clients[j], key)
  }

  lemma FirstNamedIffIndex(ib: Inbound, key: string, k: nat)
    ensures IsFirstNamed(ib, key, k) <==> k == FirstIndex(ib.protocol, ib.clients, key) < |ib.clients|
  {
    forall c ensures IsNamed(ib.protocol, c, key) <==> KeyOf(ib.protocol, c) == key {
      NamedIffKey(ib.protocol, c, key);
    }
    hide IsNamed;
    hide KeyOf;
  }

  /** The email of the new client is empty, unchanged, or free in the settings and in the rows. */
  predicate MayTake(s: State, clients: seq<Client>, was: string)
    requires clients != []
  {
    var email := clients[0].email;
    email == "" || email == was
    || (FreshEmails(s.inbounds, clients) && (was == "" || was !in s.rows || email !in s.rows))
  }

  /** An update is carried out if the key finds a client, the new one has a key, and its email, unless
      empty or unchanged, is free; the whole request is checked, though one client of it is used. */
  lemma UpdateAcceptedIff(s: State, id: int, clients: seq<Client>, key: string, a: Answers)
    ensures UpdateInboundClient(s, id, clients, key, a).Done? <==>
              id in s.inbounds && clients != [] && !IsNamed(s.inbounds[id].protocol, clients[0], "")
              && exists k: nat :: IsFirstNamed(s.inbounds[id], key, k)
                                  && MayTake(s, clients, s.inbounds[id].clients[k].email)
  {
    if id in s.inbounds && clients != [] {
      var ib := s.inbounds[id];
      var k := FirstIndex(ib.protocol, ib.clients, key);
      forall j: nat ensures IsFirstNamed(ib, key, j) <==> j == k < |ib.clients| { FirstNamedIffIndex(ib, key, j); }
      NamedIffKey(ib.protocol, clients[0], "");
      FreshIffNoDuplicate(s.inbounds, clients);
      hide IsFirstNamed;
      hide FreshEmails;
      hide DuplicateEmail;
      hide IsNamed;
      hide KeyOf;
      hide FirstIndex;
    }
  }

  /** The client takes the place of the one found, and the rows change with the two emails. */
  lemma UpdateChangesTables(s: State, id: int, clients: seq<Client>, key: string, a: Answers, k: nat)
    requires UpdateInboundClient(s, id, clients, key, a).Done? && IsFirstNamed(s.inbounds[id], key, k)
    ensures var r, ib := UpdateInboundClient(s, id, clients, key, a).state, s.inbounds[id];
            && r.inbounds == s.inbounds[id := ib.(clients := ib.clients[k := clients[0]])] && r.started == s.started
            && RowsFollow(s.rows, r.rows, id, ib.clients[k].email, clients[0])
  {
    FirstNamedIffIndex(s.inbounds[id], key, k);
    FollowingRows(s.rows, id, s.inbounds[id].clients[k].email, clients[0]);
    hide RowsFollow;
    hide UpdateRows;
    hide IsFirstNamed;
    hide DuplicateEmail;
    hide FirstIndex;
    hide AddUserLive;
    hide RemoveUserLive;
  }

  /** No new email, no row; no old one, a new row; with both the row goes from one to the other and keeps
      what it has counted. */
  predicate RowsFollow(rows: Rows, rows': Rows, id: int, was: string, c: Client) {
    if c.email == "" then rows' == rows - {was}
    else if was == "" then
      rows' == if c.email in rows then rows
               else rows[c.email := Row(id, c.enable, 0, 0, 0, c.expiry, c.total, c.reset)]
    else if was !in rows then rows' == rows
    else
      var r := rows[was];
      rows' == (rows - {was})[c.email := Row(r.inboundId, c.enable, r.up, r.down, r.allTime,
                                               c.expiry, c.total, c.reset)]
  }

  lemma FollowingRows(rows: Rows, id: int, was: string, c: Client)
    ensures var u := UpdateRows(rows, id, was, c); u.RowsDone? ==> RowsFollow(rows, u.rows, id, was, c)
  {
    if c.email != "" {
      assert FirstWith([c], c.email) == c && c in [c];
      assert Emails([c]) == {c.email};
    }
  }

  /** The old user is removed if it was enabled, the new one added if it is; without an old email the
      core is not spoken to and a restart is asked for. */
  lemma UpdateChangesCore(s: State, id: int, clients: seq<Client>, key: string, a: Answers, k: nat)
    requires UpdateInboundClient(s, id, clients, key, a).Done? && IsFirstNamed(s.inbounds[id], key, k)
    ensures var r, ib, c := UpdateInboundClient(s, id, clients, key, a).state, s.inbounds[id], clients[0];
            var was, gone, new' := ib.clients[k], a(RemoveUserCall(ib.tag, ib.clients[k].email)),
                                   a(AddUserCall(ib.tag, c.email));
            var removed := if was.enable then RemoveUserLive(s.live, ib.tag, was.email, gone) else s.live;
            if was.email == "" then r.restart && r.live == s.live
            else
              && r.live == (if c.enable
                            then AddUserLive(removed, ib.protocol, ib.tag, ApiUser(ib.protocol, c), new') else removed)
              && (r.restart <==> s.restart || (was.enable && !RemoveUserReply(s.live, ib.tag, gone))
                                 || (c.enable && !AddUserReply(s.live, ib.protocol, ib.tag, new')))
  {
    FirstNamedIffIndex(s.inbounds[id], key, k);
    hide IsFirstNamed;
    hide DuplicateEmail;
    hide FirstIndex;
    hide UpdateRows;
    hide ApiUser;
  }

  // ---- resets -------------------------------------------------------------------------------------

  /** A reset needs the row and its client; a disabled row also the inbound named in the request. */
  lemma ResetAcceptedIff(s: State, id: int, email: string, a: Answers)
    ensures ResetClientTraffic(s, id, email, a).Done? <==>
              && email in s.rows && s.rows[email].inboundId in s.inbounds
              && (exists c :: c in s.inbounds[s.rows[email].inboundId].clients && c.email == email)
              && (s.rows[email].enable || id in s.inbounds)
  {
  }

  /** The row is enabled and empty; a user is given back only to a row that was disabled, for an enabled
      client of the email in the named inbound. */
  lemma ResetChanges(s: State, id: int, email: string, a: Answers)
    requires ResetClientTraffic(s, id, email, a).Done?
    ensures var r, row := ResetClientTraffic(s, id, email, a).state, s.rows[email];
            && r.inbounds == s.inbounds && r.started == s.started
            && r.rows == s.rows[email := Row(row.inboundId, true, 0, 0, row.allTime, row.expiry, row.total, row.reset)]
            && if !row.enable && exists c :: c in s.inbounds[id].clients && c.email == email && c.enable
               then var ib, fate := s.inbounds[id], a(AddUserCall(s.inbounds[id].tag, email));
                    (r.restart <==> s.restart || !AddUserReply(s.live, ib.protocol, ib.tag, fate))
                    && exists c :: c in ib.clients && c.email == email && c.enable
                         && r.live == AddUserLive(s.live, ib.protocol, ib.tag, ApiUser(ib.protocol, c), fate)
               else r.restart == s.restart && r.live == s.live
  {
    hide ApiUser;
  }

  /** A bulk reset of one inbound reaches the rows of that inbound; of -1, those of all inbounds. */
  lemma ResetAllChanges(s: State, id: int, byController: bool, email: string)
    requires email in s.rows
    ensures var r, row := ResetAllClientTraffics(s, id, byController), s.rows[email];
            && r.inbounds == s.inbounds && r.live == s.live && r.started == s.started && r.rows.Keys == s.rows.Keys
            && (r.restart <==> s.restart || byController)
            && r.rows[email] == if (id == -1 && row.inboundId >= 0) || (id != -1 && row.inboundId == id)
                 then Row(row.inboundId, true, 0, 0, row.allTime, row.expiry, row.total, row.reset) else row
  {
  }

  // ---- whole inbounds -----------------------------------------------------------------------------

  lemma NewInboundAcceptedIff(s: State, id: int, ib: Inbound, portTaken: bool, a: Answers)
    requires id !in s.inbounds && ib.protocol.RunsInXray()
    ensures AddInbound(s, id, ib, portTaken, a).Done? <==>
              && !portTaken && FreshEmails(s.inbounds, ib.clients)
              && (forall c :: c in ib.clients ==> !IsNamed(ib.protocol, c, ""))
              && forall d :: d in s.inbounds ==> s.inbounds[d].tag != ib.tag
  {
    FreshIffNoDuplicate(s.inbounds, ib.clients);
    forall c ensures IsNamed(ib.protocol, c, "") <==> KeyOf(ib.protocol, c) == "" { NamedIffKey(ib.protocol, c, ""); }
    hide DuplicateEmail;
    hide FreshEmails;
    hide IsNamed;
    hide KeyOf;
  }

  /** The inbound is stored as sent, with a row for each email of it, also an empty one; an enabled one is
      sent to the core with every client, enabled or not. */
  lemma NewInboundChanges(s: State, id: int, ib: Inbound, portTaken: bool, a: Answers, c: Client, u: User)
    requires id !in s.inbounds && ib.protocol.RunsInXray() && AddInbound(s, id, ib, portTaken, a).Done?
    ensures var r, fate := AddInbound(s, id, ib, portTaken, a).state, a(AddInboundCall(ib.tag));
            && r.inbounds == s.inbounds[id := ib] && r.started == s.started
            && (forall e :: e in s.rows ==> e in r.rows && r.rows[e] == s.rows[e])
            && (forall e :: e in r.rows && e !in s.rows ==> exists x :: x in ib.clients && x.email == e)
            && (c in ib.clients && c.email !in s.rows ==>
                  c.email in r.rows && (c.email != "" ==>
                    r.rows[c.email] == Row(id, c.enable, 0, 0, 0, c.expiry, c.total, c.reset)))
            && (r.restart <==> s.restart || (ib.enable && !(fate == Works && ib.tag !in s.live)))
            && (if ib.enable && fate != Fails && ib.tag !in s.live
                then r.live.Keys == s.live.Keys + {ib.tag}
                     && (forall tag :: tag in s.live ==> r.live[tag] == s.live[tag])
                     && (u in r.live[ib.tag] <==> exists x :: x in ib.clients && IsUserOf(u, ib.protocol, x))
                else r.live == s.live)
  {
    if c in ib.clients && c.email != "" { FirstIsOnly(s.inbounds, ib.clients, c); }
    forall x ensures IsUserOf(u, ib.protocol, x) <==> u == ApiUser(ib.protocol, x) { UserOfIffApi(u, ib.protocol, x); }
    hide DuplicateEmail;
    hide ApiUser;
    hide IsUserOf;
    assert c in ib.clients ==> c.email in RequestEmails(ib.clients);
  }

  /** An inbound goes with its rows, and from the core if it was enabled. */
  lemma DropInboundChanges(s: State, id: int, a: Answers)
    ensures DelInbound(s, id, a).Done? <==> id in s.inbounds
    ensures id in s.inbounds ==>
              var r, ib := DelInbound(s, id, a).state, s.inbounds[id];
              var fate := a(DelInboundCall(ib.tag));
              && r.inbounds == s.inbounds - {id} && r.started == s.started
              && (forall e :: e in r.rows <==> e in s.rows && s.rows[e].inboundId != id)
              && (forall e :: e in r.rows ==> r.rows[e] == s.rows[e])
              && r.live == (if ib.enable && fate != Fails then s.live - {ib.tag} else s.live)
              && (r.restart <==> s.restart || (ib.enable && !(ib.tag in s.live && fate == Works)))
  {
  }

  // ---- no request empties an inbound --------------------------------------------------------------

  lemma {:induction false} StepKeepsSomeClient(s: State, e: Event, id: int)
    requires id in s.inbounds && s.inbounds[id].clients != [] && id in Apply(s, e).inbounds
    ensures Apply(s, e).inbounds[id].clients != []
  {
    if e.step.AddClients? || e.step.DelClient? || e.step.UpdateClient? {
      EditKeepsSomeClient(s, e, id);
    } else {
      OtherStepsKeepLengths(s, e, id);
    }
    hide Apply;
  }

  /** The three requests that change lists. */
  lemma EditKeepsSomeClient(s: State, e: Event, id: int)
    requires id in s.inbounds && s.inbounds[id].clients != [] && id in Apply(s, e).inbounds
    requires e.step.AddClients? || e.step.DelClient? || e.step.UpdateClient?
    ensures Apply(s, e).inbounds[id].clients != []
  {
    hide AddInboundClient;
    hide DelInboundClient;
    hide UpdateInboundClient;
    match e.step
    case AddClients(d, clients) =>
      if AddInboundClient(s, d, clients, e.answers).Done? { AddKeepsSomeClient(s, d, clients, e.answers, id); }
    case DelClient(d, key) =>
      if DelInboundClient(s, d, key, e.answers).Done? { DelKeepsSomeClient(s, d, key, e.answers, id); }
    case UpdateClient(d, clients, key) =>
      if UpdateInboundClient(s, d, clients, key, e.answers).Done? {
        UpdateKeepsSomeClient(s, d, clients, key, e.answers, id);
      }
  }

  lemma AddKeepsSomeClient(s: State, d: int, clients: seq<Client>, a: Answers, id: int)
    requires AddInboundClient(s, d, clients, a).Done? && id in s.inbounds && s.inbounds[id].clients != []
    ensures AddInboundClient(s, d, clients, a).state.inbounds[id].clients != []
  {
    hide DuplicateEmail;
  }

  lemma DelKeepsSomeClient(s: State, d: int, key: string, a: Answers, id: int)
    requires DelInboundClient(s, d, key, a).Done? && id in s.inbounds && s.inbounds[id].clients != []
    ensures DelInboundClient(s, d, key, a).state.inbounds[id].clients != []
  {
    hide LastMatch;
  }

  lemma UpdateKeepsSomeClient(s: State, d: int, clients: seq<Client>, key: string, a: Answers, id: int)
    requires UpdateInboundClient(s, d, clients, key, a).Done? && id in s.inbounds && s.inbounds[id].clients != []
    ensures UpdateInboundClient(s, d, clients, key, a).state.inbounds[id].clients != []
  {
    hide DuplicateEmail;
    hide UpdateRows;
    hide FirstIndex;
  }

  /** Ticks, restarts, resets and other inbounds change no list's length. */
  lemma OtherStepsKeepLengths(s: State, e: Event, id: int)
    requires id in s.inbounds && id in Apply(s, e).inbounds
    requires !e.step.AddClients? && !e.step.DelClient? && !e.step.UpdateClient?
    ensures |Apply(s, e).inbounds[id].clients| == |s.inbounds[id].clients|
  {
    if e.step.Traffic? || e.step.ForceRestart? || e.step.RestartJob? {
      TickStepsKeepLengths(s, e, id);
      hide Apply;
    } else {
      hide AddTraffic;
      hide ResetClientTraffic;
      if e.step.ResetClient? { ResetKeepsSettings(s, e); }
      hide DuplicateEmail;
    }
  }

  lemma ResetKeepsSettings(s: State, e: Event)
    requires e.step.ResetClient?
    ensures Apply(s, e).inbounds == s.inbounds
  {
    hide AddUserLive;
  }

  lemma TickKeepsLengths(s: State, ins: seq<InboundReport>, reports: seq<Report>, t: Clock, a: Answers, id: int)
    requires id in s.inbounds
    ensures var r := AddTraffic(s, ins, reports, t, a);
            id in r.inbounds && |r.inbounds[id].clients| == |s.inbounds[id].clients|
  {
    hide Credit;
    hide ReaddedUsers;
    hide Struck;
    hide TickPanics;
    var b := BeforeRenewal(s, ins, reports, t.start);
    assert id in b.inbounds && |b.inbounds[id].clients| == |s.inbounds[id].clients|;
    hide BeforeRenewal;
    var c := AutoRenewClients(b, t.renew, a);
    assert id in c.inbounds && |c.inbounds[id].clients| == |b.inbounds[id].clients|;
    hide AutoRenewClients;
  }

  lemma TickStepsKeepLengths(s: State, e: Event, id: int)
    requires id in s.inbounds && (e.step.Traffic? || e.step.ForceRestart? || e.step.RestartJob?)
    ensures id in Apply(s, e).inbounds && |Apply(s, e).inbounds[id].clients| == |s.inbounds[id].clients|
  {
    hide Load;
    hide ConfigOf;
    hide AddTraffic;
    hide TickPanics;
    match e.step
    case Traffic(ins, reports, t) => TickKeepsLengths(s, ins, reports, t, e.answers, id);
    case ForceRestart(t) => TickKeepsLengths(s, [], [], t, e.answers, id);
    case RestartJob(t) => TickKeepsLengths(s.(restart := false), [], [], t, e.answers, id);
  }

  /** An inbound that has a client keeps having one for as long as it exists, along every run. */
  lemma {:induction false} RunKeepsSomeClient(states: seq<State>, events: seq<Event>, id: int, n: nat)
    requires Run(states, events) && n <= |events| && forall i :: 0 <= i <= n ==> id in states[i].inbounds
    requires states[0].inbounds[id].clients != []
    ensures states[n].inbounds[id].clients != []
  {
    hide Apply;
    if n > 0 {
      RunKeepsSomeClient(states, events, id, n - 1);
      assert states[n - 1 + 1] == Apply(states[n - 1], events[n - 1]);
      StepKeepsSomeClient(states[n - 1], events[n - 1], id);
    }
  }
}
