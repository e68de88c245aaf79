/**
 The users inside the running core against the users GetXrayConfig would give it. Every step either
 asks for a restart or leaves the two equal; where the code can miss that, the lemma says exactly
 when it does.
 */
module PanelAgreement {
  import opened PanelModel
  import opened PanelSteps
  import opened PanelConsistency
  import XrayConfig

  predicate Served(ib: Inbound) {
    InConfig(ib) && ib.protocol.HasUserApi()
  }

  function EnabledTags(t: Table): set<string> {
    set id | id in t && InConfig(t[id]) :: t[id].tag
  }

  predicate AgreesAt(s: State, id: int) {
    id in s.inbounds && Served(s.inbounds[id]) ==>
      s.inbounds[id].tag in s.live && s.live[s.inbounds[id].tag] == Emit(s, id)
  }

  /** The core runs exactly the enabled Xray inbounds, each with the users a fresh configuration has. */
  ghost predicate Agrees(s: State) {
    s.live.Keys == EnabledTags(s.inbounds) && forall id :: AgreesAt(s, id)
  }

  predicate Active(s: State, id: int, c: Client) {
    id in s.inbounds && c in s.inbounds[id].clients && c.enable && c.email !in Depleted(s.rows, id)
  }

  function ActiveUsers(s: State, id: int): set<User>
    requires id in s.inbounds
  {
    set c | c in s.inbounds[id].clients && Active(s, id, c) :: LoadedUser(s.inbounds[id].protocol, c)
  }

  lemma EmitIsActiveUsers(s: State, id: int)
    requires id in s.inbounds
    ensures Emit(s, id) == ActiveUsers(s, id)
  {
  }

  /** `Emit` is what the in-place filter of GetXrayConfig produces, as users. */
  lemma EmitIsGenerated(s: State, id: int)
    requires id in s.inbounds && InConfig(s.inbounds[id])
    ensures UsersOf(ConfigOf(s)[id]) == Emit(s, id)
  {
    hide ConfigUser;
    hide ToConfig;
    hide Depleted;
    var ib := s.inbounds[id];
    var d := Depleted(s.rows, id);
    var kept := XrayConfig.Kept(ib.clients, d);
    var cfg := XrayConfig.ConfigClients(ib.clients, d);
    forall u | u in UsersOf(ConfigOf(s)[id]) ensures u in Emit(s, id) {
      var k :| k in cfg && u == ConfigUser(ib.protocol, k);
      var i :| 0 <= i < |cfg| && cfg[i] == k;
      assert kept[i] in kept && k == ToConfig(kept[i]);
    }
    forall u | u in Emit(s, id) ensures u in UsersOf(ConfigOf(s)[id]) {
      var c :| c in ib.clients && c.enable && c.email !in d && u == LoadedUser(ib.protocol, c);
      var i :| 0 <= i < |kept| && kept[i] == c;
      assert cfg[i] == ToConfig(c) && cfg[i] in cfg;
    }
  }

  /** An inbound that a step does not touch keeps its agreement. */
  lemma UntouchedAgrees(s: State, r: State, id: int)
    requires AgreesAt(s, id) && id in s.inbounds && id in r.inbounds
    requires r.inbounds[id] == s.inbounds[id] && Depleted(r.rows, id) == Depleted(s.rows, id)
    requires s.inbounds[id].tag in s.live ==>
               s.inbounds[id].tag in r.live && r.live[s.inbounds[id].tag] == s.live[s.inbounds[id].tag]
    ensures AgreesAt(r, id)
  {
  }

  /** Two clients of one inbound that are the same user have the same key. */
  lemma SameUserSameKey(p: Protocol, c: Client, d: Client)
    requires p.HasUserApi() && LoadedUser(p, c) == LoadedUser(p, d)
    ensures KeyOf(p, c) == KeyOf(p, d)
  {
  }

  /** In a consistent state the non-empty email of a user names its client. */
  lemma EmailNamesClient(t: Table, id: int, c: Client, id': int, d: Client)
    requires UniqueEmails(t) && id in t && id' in t && c in t[id].clients && d in t[id'].clients
    requires c.email != "" && c.email == d.email
    ensures id == id' && c == d
  {
    var i :| 0 <= i < |t[id].clients| && t[id].clients[i] == c;
    var j :| 0 <= j < |t[id'].clients| && t[id'].clients[j] == d;
    EmailIsAtOnePlace(t, id, i, id', j, c.email);
  }

  lemma RowOfClient(s: State, id: int, c: Client)
    requires Consistent(s) && id in s.inbounds && c in s.inbounds[id].clients && c.email != ""
    ensures c.email in s.rows && RowFits(s.rows[c.email], id, c)
  {
    var i :| 0 <= i < |s.inbounds[id].clients| && s.inbounds[id].clients[i] == c;
    assert At(s.inbounds, id, i) && ClientAt(s.inbounds, id, i) == c;
  }

  lemma ClientOfRow(s: State, email: string) returns (c: Client)
    requires Consistent(s) && email in s.rows
    ensures email != "" && s.rows[email].inboundId in s.inbounds
    ensures c in s.inbounds[s.rows[email].inboundId].clients && c.email == email
              && RowFits(s.rows[email], s.rows[email].inboundId, c)
  {
    assert Owned(s.inbounds, email);
    var id, i :| HasEmail(s.inbounds, id, i, email);
    c := ClientAt(s.inbounds, id, i);
    RowOfClient(s, id, c);
  }

  lemma TagIsLive(s: State, id: int)
    requires Agrees(s) && DistinctTags(s.inbounds) && id in s.inbounds
    ensures s.inbounds[id].tag in s.live <==> InConfig(s.inbounds[id])
  {
  }

  lemma AgreesThere(s: State, id: int)
    requires Agrees(s) && id in s.inbounds
    ensures AgreesAt(s, id)
  {
  }

  // ---- AddInboundClient ---------------------------------------------------------------------------

  /** After an addition the new clients are active if enabled. */
  lemma NewActive(s: State, id: int, clients: seq<Client>, a: Answers, c: Client)
    requires Consistent(s) && AddInboundClient(s, id, clients, a).Done? && c in clients && c.email != ""
    ensures Active(AddInboundClient(s, id, clients, a).state, id, c) <==> c.enable
  {
    var j :| 0 <= j < |clients| && clients[j] == c;
    AddedRow(s.inbounds, s.rows, id, clients, j);
    hide Consistent;
    hide DuplicateEmail;
  }

  /** The old ones are as active as before. */
  lemma OldActive(s: State, id: int, clients: seq<Client>, a: Answers, c: Client)
    requires Consistent(s) && AddInboundClient(s, id, clients, a).Done? && id in s.inbounds
    requires c in s.inbounds[id].clients
    ensures Active(AddInboundClient(s, id, clients, a).state, id, c) <==> Active(s, id, c)
  {
    if c.email != "" { RowOfClient(s, id, c); } else {
      NoEmptyRow(s, AddInboundClient(s, id, clients, a).state, id, clients, a);
    }
    hide Consistent;
    hide DuplicateEmail;
  }

  /** AddUser is given each enabled new client with the flow a configuration would give it. */
  predicate AddedArePlain(ib: Inbound, clients: seq<Client>) {
    Served(ib) ==> forall c :: c in clients && c.enable ==> PlainFlow(ib.protocol, c)
  }

  lemma AddAgreesHereIff(s: State, id: int, clients: seq<Client>, a: Answers)
    requires Consistent(s) && Agrees(s) && AddInboundClient(s, id, clients, a).Done?
    requires !AddInboundClient(s, id, clients, a).state.restart
    ensures AgreesAt(AddInboundClient(s, id, clients, a).state, id) <==> AddedArePlain(s.inbounds[id], clients)
  {
    hide Consistent;
    var r, ib := AddInboundClient(s, id, clients, a).state, s.inbounds[id];
    assert AgreesAt(s, id);
    if Served(ib) {
      assert r.inbounds[id] == ib.(clients := ib.clients + clients) && !AddNeedsRestart(s.live, ib, clients, a);
      assert r.live == AddUsersLive(s.live, ib, clients, a);
      EmitIsActiveUsers(s, id);
      EmitIsActiveUsers(r, id);
      forall c | c in ib.clients ensures Active(r, id, c) <==> Active(s, id, c) { OldActive(s, id, clients, a, c); }
      forall c | c in clients ensures c.email != "" && (Active(r, id, c) <==> c.enable) {
        NewActive(s, id, clients, a, c);
      }
      hide AddInboundClient;
      AddedUsersAreActiveIff(s, r, id, clients, a);
    }
  }

  lemma AddedUsersAreActiveIff(s: State, r: State, id: int, clients: seq<Client>, a: Answers)
    requires id in s.inbounds && id in r.inbounds && Served(s.inbounds[id])
    requires r.inbounds[id] == s.inbounds[id].(clients := s.inbounds[id].clients + clients)
    requires !AddNeedsRestart(s.live, s.inbounds[id], clients, a)
    requires forall c :: c in s.inbounds[id].clients ==> (Active(r, id, c) <==> Active(s, id, c))
    requires forall c :: c in clients ==> (Active(r, id, c) <==> c.enable)
    ensures ActiveUsers(r, id) == ActiveUsers(s, id) + AddedUsers(s.inbounds[id], clients, a)
            <==> AddedArePlain(s.inbounds[id], clients)
  {
    hide Active;
    hide ApiUser;
    hide LoadedUser;
    hide PlainFlow;
    var ib := s.inbounds[id];
    forall c | c in clients && c.enable
      ensures ApiUser(ib.protocol, c) in AddedUsers(ib, clients, a)
      ensures ApiUser(ib.protocol, c) == LoadedUser(ib.protocol, c) <==> PlainFlow(ib.protocol, c)
    {
      assert AddUserReply(s.live, ib.protocol, ib.tag, a(AddUserCall(ib.tag, c.email)));
      ApiUserIsConfigUser(ib.protocol, c);
    }
    if c :| c in clients && c.enable && !PlainFlow(ib.protocol, c) {
      RawUserIsInactive(r, id, c);
    }
  }

  lemma RawUserIsInactive(s: State, id: int, c: Client)
    requires id in s.inbounds && !PlainFlow(s.inbounds[id].protocol, c)
    ensures ApiUser(s.inbounds[id].protocol, c) !in ActiveUsers(s, id)
  {
    forall d ensures LoadedUser(s.inbounds[id].protocol, d) != ApiUser(s.inbounds[id].protocol, c) {
      RawFlowIsNeverLoaded(s.inbounds[id].protocol, c, d);
    }
  }

  lemma NoEmptyRow(s: State, r: State, id: int, clients: seq<Client>, a: Answers)
    requires Consistent(s) && AddInboundClient(s, id, clients, a) == Done(r)
    ensures "" !in s.rows && "" !in r.rows
  {
    assert !Owned(s.inbounds, "");
  }

  /** An addition that raises no flag agrees exactly when no enabled client of it has the flow that a
      configuration would rewrite, or the inbound is not served. */
  lemma AddAgreesIff(s: State, id: int, clients: seq<Client>, a: Answers)
    requires Consistent(s) && Agrees(s) && AddInboundClient(s, id, clients, a).Done?
    requires !AddInboundClient(s, id, clients, a).state.restart
    ensures Agrees(AddInboundClient(s, id, clients, a).state) <==> AddedArePlain(s.inbounds[id], clients)
  {
    hide Agreed;
    hide Emit;
    hide AddedArePlain;
    var r := AddInboundClient(s, id, clients, a).state;
    AddAgreesHereIff(s, id, clients, a);
    forall d | d in s.inbounds && d != id ensures AgreesAt(r, d) {
      assert Depleted(r.rows, d) == Depleted(s.rows, d);
      UntouchedAgrees(s, r, d);
    }
    assert EnabledTags(r.inbounds) == EnabledTags(s.inbounds) by {
      forall d | d in s.inbounds ensures InConfig(r.inbounds[d]) <==> InConfig(s.inbounds[d]) {}
    }
  }

  lemma FrameAgrees(s: State, r: State, id: int)
    requires DistinctTags(s.inbounds) && id in s.inbounds && id in r.inbounds
    requires forall d :: d in s.inbounds && d != id ==> AgreesAt(s, d)
    requires r.inbounds.Keys == s.inbounds.Keys
    requires InConfig(r.inbounds[id]) == InConfig(s.inbounds[id]) && r.inbounds[id].tag == s.inbounds[id].tag
    requires forall d :: d in s.inbounds && d != id ==>
               r.inbounds[d] == s.inbounds[d] && Depleted(r.rows, d) == Depleted(s.rows, d)
    requires r.live.Keys == s.live.Keys
    requires forall tag :: tag in s.live && tag != s.inbounds[id].tag ==> r.live[tag] == s.live[tag]
    ensures EnabledTags(r.inbounds) == EnabledTags(s.inbounds)
    ensures forall d :: d in s.inbounds && d != id ==> AgreesAt(r, d)
  {
    forall d | d in s.inbounds
      ensures InConfig(r.inbounds[d]) == InConfig(s.inbounds[d]) && r.inbounds[d].tag == s.inbounds[d].tag
    {
    }
    forall d | d in s.inbounds && d != id ensures AgreesAt(r, d) {
      UntouchedAgrees(s, r, d);
    }
  }

  // ---- DelInboundClient ---------------------------------------------------------------------------

  /** Every active client that goes is the one whose user is removed from the core. */
  ghost predicate DelReachesCore(s: State, id: int, key: string)
    requires id in s.inbounds
  {
    var ib := s.inbounds[id];
    Served(ib) ==>
      forall c :: Active(s, id, c) && KeyOf(ib.protocol, c) == key ==>
        c.email != "" && LastMatch(ib.protocol, ib.clients, key) == Match(c)
  }

  /** The users left in the core, when no call failed: all but those of the removed client's email. */
  lemma DelLive(s: State, id: int, key: string, a: Answers)
    requires Consistent(s) && Agrees(s) && DelInboundClient(s, id, key, a).Done?
    requires !DelInboundClient(s, id, key, a).state.restart && Served(s.inbounds[id])
    ensures var r, ib := DelInboundClient(s, id, key, a).state, s.inbounds[id];
            var m := LastMatch(ib.protocol, ib.clients, key);
            ib.tag in s.live && r.live.Keys == s.live.Keys
            && r.live[ib.tag]
                 == set u | u in s.live[ib.tag] && !(m.Match? && m.client.email != "" && u.email == m.client.email
                                                                  && Active(s, id, m.client))
  {
    var r, ib := DelInboundClient(s, id, key, a).state, s.inbounds[id];
    var m := LastMatch(ib.protocol, ib.clients, key);
    TagIsLive(s, id);
    if m.Match? && m.client.email != "" {
      RowOfClient(s, id, m.client);
    }
  }

  lemma StaysActive(s: State, id: int, key: string, a: Answers, c: Client)
    requires Consistent(s) && DelInboundClient(s, id, key, a).Done?
    ensures Active(DelInboundClient(s, id, key, a).state, id, c)
            <==> Active(s, id, c) && KeyOf(s.inbounds[id].protocol, c) != key
  {
    hide RowForClient;
    hide ClientForRow;
    hide DistinctTags;
    var r, ib := DelInboundClient(s, id, key, a).state, s.inbounds[id];
    var m := LastMatch(ib.protocol, ib.clients, key);
    if c in ib.clients && KeyOf(ib.protocol, c) != key && m.Match? && m.client.email != "" {
      if c.email == m.client.email {
        EmailNamesClient(s.inbounds, id, c, id, m.client);
        assert false;
      }
    }
  }

  /** What DelLive and StaysActive say, without the step that made it so. */
  ghost predicate AfterDel(s: State, r: State, id: int, key: string)
    requires id in s.inbounds
  {
    var ib := s.inbounds[id];
    var p := ib.protocol;
    var m := LastMatch(p, ib.clients, key);
    && id in r.inbounds && r.inbounds[id] == ib.(clients := Others(p, ib.clients, key))
    && ib.tag in s.live && ib.tag in r.live
    && (forall c :: Active(r, id, c) <==> Active(s, id, c) && KeyOf(p, c) != key)
    && r.live[ib.tag] == set u | u in s.live[ib.tag] && !(m.Match? && m.client.email != "" && u.email == m.client.email
                                                          && Active(s, id, m.client))
  }

  lemma ReachedCoreAgrees(s: State, r: State, id: int, key: string)
    requires Consistent(s) && id in s.inbounds && Served(s.inbounds[id]) && AfterDel(s, r, id, key)
    requires s.live[s.inbounds[id].tag] == ActiveUsers(s, id) && DelReachesCore(s, id, key)
    ensures r.live[s.inbounds[id].tag] == ActiveUsers(r, id)
  {
    var ib := s.inbounds[id];
    var p, m := ib.protocol, LastMatch(ib.protocol, ib.clients, key);
    forall u | u in ActiveUsers(s, id) ensures u in ActiveUsers(r, id) <==> u in r.live[ib.tag] {
      var c :| c in ib.clients && Active(s, id, c) && u == LoadedUser(p, c);
      if u in ActiveUsers(r, id) {
        var d :| d in r.inbounds[id].clients && Active(r, id, d) && u == LoadedUser(p, d);
        if m.Match? && m.client.email != "" && d.email == m.client.email {
          EmailNamesClient(s.inbounds, id, d, id, m.client);
          assert false;
        }
      } else {
        assert KeyOf(p, c) == key;
      }
    }
  }

  lemma MissedCoreDisagrees(s: State, r: State, id: int, key: string)
    requires Consistent(s) && id in s.inbounds && Served(s.inbounds[id]) && AfterDel(s, r, id, key)
    requires s.live[s.inbounds[id].tag] == ActiveUsers(s, id) && !DelReachesCore(s, id, key)
    ensures r.live[s.inbounds[id].tag] != ActiveUsers(r, id)
  {
    var ib := s.inbounds[id];
    var p, m := ib.protocol, LastMatch(ib.protocol, ib.clients, key);
    var c :| Active(s, id, c) && KeyOf(p, c) == key && (c.email == "" || m != Match(c));
    var u := LoadedUser(p, c);
    assert u in ActiveUsers(s, id);
    if m.Match? && m.client.email != "" && c.email == m.client.email {
      EmailNamesClient(s.inbounds, id, c, id, m.client);
      assert false;
    }
    if u in ActiveUsers(r, id) {
      var d :| d in r.inbounds[id].clients && Active(r, id, d) && u == LoadedUser(p, d);
      SameUserSameKey(p, c, d);
      assert false;
    }
  }

  lemma DelAgreesHereIff(s: State, id: int, key: string, a: Answers)
    requires Consistent(s) && Agrees(s) && DelInboundClient(s, id, key, a).Done?
    requires !DelInboundClient(s, id, key, a).state.restart
    ensures AgreesAt(DelInboundClient(s, id, key, a).state, id) <==> DelReachesCore(s, id, key)
  {
    var r, ib := DelInboundClient(s, id, key, a).state, s.inbounds[id];
    assert AgreesAt(s, id);
    if Served(ib) {
      EmitIsActiveUsers(s, id);
      EmitIsActiveUsers(r, id);
      DelLive(s, id, key, a);
      forall c ensures Active(r, id, c) <==> Active(s, id, c) && KeyOf(ib.protocol, c) != key {
        StaysActive(s, id, key, a, c);
      }
      if DelReachesCore(s, id, key) {
        ReachedCoreAgrees(s, r, id, key);
      } else {
        MissedCoreDisagrees(s, r, id, key);
      }
    }
  }

  /** A deletion leaves the tables and users of other inbounds alone. */
  lemma DelKeepsOthers(s: State, id: int, key: string, a: Answers)
    requires DelInboundClient(s, id, key, a).Done?
    ensures var r := DelInboundClient(s, id, key, a).state;
            && id in s.inbounds && r.inbounds == s.inbounds[id := r.inbounds[id]]
            && InConfig(r.inbounds[id]) == InConfig(s.inbounds[id]) && r.inbounds[id].tag == s.inbounds[id].tag
            && r.live.Keys == s.live.Keys
            && (forall tag :: tag in s.live && tag != s.inbounds[id].tag ==> r.live[tag] == s.live[tag])
  {
    hide Others;
    hide LastMatch;
    hide RemoveUserReply;
  }

  lemma DelKeepsDepleted(s: State, id: int, key: string, a: Answers, d: int)
    requires Consistent(s) && DelInboundClient(s, id, key, a).Done? && d != id
    ensures Depleted(DelInboundClient(s, id, key, a).state.rows, d) == Depleted(s.rows, d)
  {
    var m := LastMatch(s.inbounds[id].protocol, s.inbounds[id].clients, key);
    if m.Match? && m.client.email != "" {
      RowOfClient(s, id, m.client);
    }
    hide Agreed;
  }

  lemma DelFrame(s: State, id: int, key: string, a: Answers)
    requires Consistent(s) && Agrees(s) && DelInboundClient(s, id, key, a).Done?
    ensures var r := DelInboundClient(s, id, key, a).state;
            && EnabledTags(r.inbounds) == EnabledTags(s.inbounds) && r.live.Keys == s.live.Keys
            && forall d :: d != id ==> AgreesAt(r, d)
  {
    var r := DelInboundClient(s, id, key, a).state;
    DelKeepsOthers(s, id, key, a);
    forall d | d in s.inbounds && d != id ensures Depleted(r.rows, d) == Depleted(s.rows, d) {
      DelKeepsDepleted(s, id, key, a, d);
    }
    hide DelInboundClient;
    hide Agreed;
    hide Emit;
    FrameAgrees(s, r, id);
  }

  lemma DelAgreesIff(s: State, id: int, key: string, a: Answers)
    requires Consistent(s) && Agrees(s) && DelInboundClient(s, id, key, a).Done?
    requires !DelInboundClient(s, id, key, a).state.restart
    ensures Agrees(DelInboundClient(s, id, key, a).state) <==> DelReachesCore(s, id, key)
  {
    hide Consistent;
    hide AgreesAt;
    hide DelReachesCore;
    DelAgreesHereIff(s, id, key, a);
    DelFrame(s, id, key, a);
    assert id in s.inbounds;
    hide DelInboundClient;
  }

  // ---- UpdateInboundClient ------------------------------------------------------------------------

  lemma InReplaced(clients: seq<Client>, k: nat, c: Client, x: Client)
    requires k < |clients|
    ensures x in clients[k := c] <==> x == c || exists i :: 0 <= i < |clients| && i != k && clients[i] == x
  {
    var list := clients[k := c];
    assert list[k] == c;
    if i :| 0 <= i < |clients| && i != k && clients[i] == x {
      assert list[i] == x;
    }
  }

  lemma UpdateActive(s: State, id: int, clients: seq<Client>, key: string, a: Answers, x: Client)
    requires Consistent(s) && UpdateInboundClient(s, id, clients, key, a).Done?
    ensures var ib, c := s.inbounds[id], clients[0];
            var k := FirstIndex(ib.protocol, ib.clients, key);
            var was := ib.clients[k];
            was.email != "" ==>
            (Active(UpdateInboundClient(s, id, clients, key, a).state, id, x) <==>
             (x == c && c.enable) || (Active(s, id, x) && x.email != was.email))
  {
    hide HasEmail;
    hide ClientHasRow;
    hide FirstIndex;
    hide DistinctTags;
    var r, ib, c := UpdateInboundClient(s, id, clients, key, a).state, s.inbounds[id], clients[0];
    var k := FirstIndex(ib.protocol, ib.clients, key);
    var was := ib.clients[k];
    var list := ib.clients[k := c];
    EditFits(s.inbounds, id, k, clients);
    UpdatedRow(s.inbounds, s.rows, id, k, c);
    if was.email != "" {
      assert "" !in s.rows by { assert !Owned(s.inbounds, ""); }
      assert r.inbounds[id].clients == list;
      InReplaced(ib.clients, k, c, x);
      forall i | 0 <= i < |ib.clients| && i != k ensures ib.clients[i].email != was.email {
        if ib.clients[i].email == was.email {
          EmailIsAtOnePlace(s.inbounds, id, i, id, k, was.email);
          assert false;
        }
      }
      if x in ib.clients && x.email == c.email && c.email != "" {
        var i :| 0 <= i < |ib.clients| && ib.clients[i] == x;
        assert At(s.inbounds, id, i);
        assert i == k;
      }
      if x in ib.clients && x.email != was.email && x.email != "" {
        RowOfClient(s, id, x);
      }
      if c.email != "" {
        RowOfClient(s, id, was);
      }
    }
  }

  /** The users left in the core after an update in which no call failed. */
  lemma UpdateLive(s: State, id: int, clients: seq<Client>, key: string, a: Answers)
    requires Agrees(s) && DistinctTags(s.inbounds) && UpdateInboundClient(s, id, clients, key, a).Done?
    requires !UpdateInboundClient(s, id, clients, key, a).state.restart && Served(s.inbounds[id])
    ensures var r, ib, c := UpdateInboundClient(s, id, clients, key, a).state, s.inbounds[id], clients[0];
            var was := ib.clients[FirstIndex(ib.protocol, ib.clients, key)];
            was.email != "" && ib.tag in s.live && ib.tag in r.live
            && r.live[ib.tag] == (set u | u in s.live[ib.tag] && UserSurvives(was, u))
                                 + (if c.enable then {ApiUser(ib.protocol, c)} else {})
  {
    TagIsLive(s, id);
  }

  /** The same for the one client that an update hands to AddUser. */
  predicate UpdatedIsPlain(ib: Inbound, c: Client) {
    Served(ib) && c.enable ==> PlainFlow(ib.protocol, c)
  }

  lemma UpdateAgreesHereIff(s: State, id: int, clients: seq<Client>, key: string, a: Answers)
    requires Consistent(s) && Agrees(s) && UpdateInboundClient(s, id, clients, key, a).Done?
    requires !UpdateInboundClient(s, id, clients, key, a).state.restart
    ensures AgreesAt(UpdateInboundClient(s, id, clients, key, a).state, id)
            <==> UpdatedIsPlain(s.inbounds[id], clients[0])
  {
    var r, ib, c := UpdateInboundClient(s, id, clients, key, a).state, s.inbounds[id], clients[0];
    var k := FirstIndex(ib.protocol, ib.clients, key);
    var was := ib.clients[k];
    assert AgreesAt(s, id);
    if Served(ib) {
      UpdateLive(s, id, clients, key, a);
      forall x ensures Active(r, id, x) <==> (x == c && c.enable) || (Active(s, id, x) && x.email != was.email) {
        UpdateActive(s, id, clients, key, a, x);
      }
      EmitIsActiveUsers(s, id);
      EmitIsActiveUsers(r, id);
      UpdatedUsers(s, r, id, was, c);
      hide UpdateInboundClient;
      hide Consistent;
      hide Emit;
      hide ActiveUsers;
      ApiUserIsConfigUser(ib.protocol, c);
      if !PlainFlow(ib.protocol, c) { RawUserIsInactive(r, id, c); }
      hide PlainFlow;
    }
  }

  predicate UserSurvives(was: Client, u: User) {
    !(was.enable && u.email == was.email)
  }

  lemma UpdatedUsers(s: State, r: State, id: int, was: Client, c: Client)
    requires Consistent(s) && id in s.inbounds && id in r.inbounds && was in s.inbounds[id].clients && was.email != ""
    requires r.inbounds[id].protocol == s.inbounds[id].protocol
    requires forall x :: Active(r, id, x) <==> (x == c && c.enable) || (Active(s, id, x) && x.email != was.email)
    ensures ActiveUsers(r, id) == (set u | u in ActiveUsers(s, id) && UserSurvives(was, u))
                                  + (if c.enable then {LoadedUser(s.inbounds[id].protocol, c)} else {})
  {
    var p := s.inbounds[id].protocol;
    forall u | u in ActiveUsers(r, id)
      ensures (u in ActiveUsers(s, id) && UserSurvives(was, u)) || (c.enable && u == LoadedUser(p, c))
    {
      var x :| x in r.inbounds[id].clients && Active(r, id, x) && u == LoadedUser(p, x);
      assert x == c || Active(s, id, x);
    }
    forall u | u in ActiveUsers(s, id) && UserSurvives(was, u) ensures u in ActiveUsers(r, id) {
      var x :| x in s.inbounds[id].clients && Active(s, id, x) && u == LoadedUser(p, x);
      if x.email == was.email {
        EmailNamesClient(s.inbounds, id, x, id, was);
        assert false;
      }
      assert Active(r, id, x);
    }
    if c.enable {
      assert Active(r, id, c);
      assert c in r.inbounds[id].clients && LoadedUser(p, c) in ActiveUsers(r, id);
    }
  }

  /** An update that raises no flag agrees exactly when the client it hands to AddUser, if any, does
      not have the flow that a configuration would rewrite. */
  lemma UpdateAgreesIff(s: State, id: int, clients: seq<Client>, key: string, a: Answers)
    requires Consistent(s) && Agrees(s) && UpdateInboundClient(s, id, clients, key, a).Done?
    requires !UpdateInboundClient(s, id, clients, key, a).state.restart
    ensures Agrees(UpdateInboundClient(s, id, clients, key, a).state) <==> UpdatedIsPlain(s.inbounds[id], clients[0])
  {
    hide UpdatedIsPlain;
    var r := UpdateInboundClient(s, id, clients, key, a).state;
    UpdateAgreesHereIff(s, id, clients, key, a);
    UpdateFrame(s, id, clients, key, a);
    FrameAgrees(s, r, id);
  }

  lemma UpdateFrame(s: State, id: int, clients: seq<Client>, key: string, a: Answers)
    requires Consistent(s) && UpdateInboundClient(s, id, clients, key, a).Done?
    ensures var r := UpdateInboundClient(s, id, clients, key, a).state;
            && r.live.Keys == s.live.Keys
            && (forall tag :: tag in s.live && tag != s.inbounds[id].tag ==> r.live[tag] == s.live[tag])
            && forall d :: d in s.inbounds && d != id ==>
                             r.inbounds[d] == s.inbounds[d] && Depleted(r.rows, d) == Depleted(s.rows, d)
  {
    var r, ib, c := UpdateInboundClient(s, id, clients, key, a).state, s.inbounds[id], clients[0];
    var k := FirstIndex(ib.protocol, ib.clients, key);
    EditFits(s.inbounds, id, k, clients);
    UpdateRowsFrame(s, id, k, c);
  }

  lemma UpdateRowsFrame(s: State, id: int, k: nat, c: Client)
    requires Consistent(s) && At(s.inbounds, id, k) && FitsAt(s.inbounds, id, k, c)
    ensures var u := UpdateRows(s.rows, id, ClientAt(s.inbounds, id, k).email, c);
            u.RowsDone? && forall d :: d != id ==> Depleted(u.rows, d) == Depleted(s.rows, d)
  {
    hide RowForClient;
    hide DistinctTags;
    var was := ClientAt(s.inbounds, id, k);
    var u := UpdateRows(s.rows, id, was.email, c);
    UpdatedRow(s.inbounds, s.rows, id, k, c);
    if was.email != "" { RowOfClient(s, id, was); }
    if c.email != "" && c.email in s.rows {
      assert Owned(s.inbounds, c.email);
      var d, i :| HasEmail(s.inbounds, d, i, c.email);
      assert d == id && i == k;
    }
    forall d | d != id ensures Depleted(u.rows, d) == Depleted(s.rows, d) {
      forall e | e in u.rows && u.rows[e].inboundId == d ensures e in s.rows && u.rows[e] == s.rows[e] {}
      forall e | e in s.rows && s.rows[e].inboundId == d ensures e in u.rows && u.rows[e] == s.rows[e] {}
    }
  }

  // ---- ResetClientTraffic -------------------------------------------------------------------------

  /** The user comes back to the core, as a configuration would have it, or has no need to. */
  predicate ResetReachesCore(s: State, id: int, email: string)
    requires email in s.rows && s.rows[email].inboundId in s.inbounds
  {
    var own := s.rows[email].inboundId;
    s.rows[email].enable || !Served(s.inbounds[own]) || !HasEnabled(s.inbounds[own].clients, email)
    || (id == own && PlainFlow(s.inbounds[own].protocol, FirstEnabled(s.inbounds[own].clients, email)))
  }

  lemma ResetTables(s: State, id: int, email: string, a: Answers)
    requires ResetClientTraffic(s, id, email, a).Done?
    ensures var r := ResetClientTraffic(s, id, email, a).state;
            email in s.rows && r.inbounds == s.inbounds && r.rows == s.rows[email := ClearedRow(s.rows[email])]
  {
    hide AddUserLive;
    hide AddUserReply;
  }

  /** The client of a cleared row becomes active if its settings enable it. */
  lemma ClearedActive(s: State, r: State, own: int, c: Client, x: Client)
    requires Consistent(s) && own in s.inbounds && c in s.inbounds[own].clients && c.email in s.rows
    requires s.rows[c.email].inboundId == own
    requires r.inbounds == s.inbounds && r.rows == s.rows[c.email := ClearedRow(s.rows[c.email])]
    ensures Active(r, own, x) <==> Active(s, own, x) || (x == c && c.enable)
    ensures x in s.inbounds[own].clients && x.email == c.email ==> x == c
  {
    assert c.email != "" by { assert !Owned(s.inbounds, ""); }
    if x in s.inbounds[own].clients && x.email == c.email { EmailNamesClient(s.inbounds, own, x, own, c); }
    hide Consistent;
  }

  lemma ClearedUsers(s: State, r: State, own: int, c: Client)
    requires Consistent(s) && own in s.inbounds && c in s.inbounds[own].clients && c.email in s.rows
    requires s.rows[c.email].inboundId == own
    requires r.inbounds == s.inbounds && r.rows == s.rows[c.email := ClearedRow(s.rows[c.email])]
    ensures var u := LoadedUser(s.inbounds[own].protocol, c);
            && ActiveUsers(r, own) == ActiveUsers(s, own) + (if c.enable && !s.rows[c.email].enable then {u} else {})
            && (!s.rows[c.email].enable ==> u !in ActiveUsers(s, own))
    ensures HasEnabled(s.inbounds[own].clients, c.email) <==> c.enable
    ensures c.enable ==> FirstEnabled(s.inbounds[own].clients, c.email) == c
  {
    forall x ensures Active(r, own, x) <==> Active(s, own, x) || (x == c && c.enable)
      ensures x in s.inbounds[own].clients && x.email == c.email ==> x == c
    {
      ClearedActive(s, r, own, c, x);
    }
    assert c.email !in Depleted(s.rows, own) <==> s.rows[c.email].enable;
    assert Active(s, own, c) <==> c.enable && s.rows[c.email].enable;
    hide Consistent;
    hide Active;
    assert c.enable ==> Active(r, own, c);
  }

  /** The users in the core after a reset in which no call failed. */
  lemma ResetLive(s: State, id: int, email: string, a: Answers)
    requires Consistent(s) && ResetClientTraffic(s, id, email, a).Done?
    requires !ResetClientTraffic(s, id, email, a).state.restart
    ensures var r, own := ResetClientTraffic(s, id, email, a).state, s.rows[email].inboundId;
            var ib := s.inbounds[own];
            Served(ib) && ib.tag in s.live ==>
              ib.tag in r.live && r.live[ib.tag] == s.live[ib.tag] +
                (if !s.rows[email].enable && id == own && HasEnabled(ib.clients, email)
                 then {ApiUser(ib.protocol, FirstEnabled(ib.clients, email))} else {})
  {
    var own := s.rows[email].inboundId;
    var c := ClientOfRow(s, email);
    if id in s.inbounds && id != own && HasEnabled(s.inbounds[id].clients, email) {
      EmailNamesClient(s.inbounds, id, FirstEnabled(s.inbounds[id].clients, email), own, c);
      assert false;
    }
    hide Consistent;
    hide ApiUser;
  }

  lemma ResetAgreesHereIff(s: State, id: int, email: string, a: Answers)
    requires Consistent(s) && Agrees(s) && ResetClientTraffic(s, id, email, a).Done?
    requires !ResetClientTraffic(s, id, email, a).state.restart
    ensures AgreesAt(ResetClientTraffic(s, id, email, a).state, s.rows[email].inboundId) <==>
              ResetReachesCore(s, id, email)
  {
    hide ResetClientTraffic;
    hide Consistent;
    hide Agrees;
    hide ActiveUsers;
    hide Emit;
    hide HasEnabled;
    hide FirstEnabled;
    hide LoadedUser;
    hide ApiUser;
    hide PlainFlow;
    ResetTables(s, id, email, a);
    ResetLive(s, id, email, a);
    var r, own := ResetClientTraffic(s, id, email, a).state, s.rows[email].inboundId;
    var c := ClientOfRow(s, email);
    ClearedUsers(s, r, own, c);
    var ib := s.inbounds[own];
    if Served(ib) {
      AgreesThere(s, own);
      EmitIsActiveUsers(s, own);
      EmitIsActiveUsers(r, own);
      ApiUserIsConfigUser(ib.protocol, c);
      if c.enable && !s.rows[email].enable {
        assert LoadedUser(ib.protocol, c) in ActiveUsers(r, own) && LoadedUser(ib.protocol, c) !in ActiveUsers(s, own);
        if !PlainFlow(ib.protocol, c) { RawUserIsInactive(r, own, c); }
        assert id == own ==> ApiUser(ib.protocol, c) in r.live[ib.tag];
        assert id != own ==> r.live[ib.tag] == s.live[ib.tag];
      }
    }
  }

  /** Of the users, a reset touches at most those of the inbound that its row belongs to. */
  lemma ResetStaysHome(s: State, id: int, email: string, a: Answers)
    requires Consistent(s) && ResetClientTraffic(s, id, email, a).Done?
    ensures var r, own := ResetClientTraffic(s, id, email, a).state, s.rows[email].inboundId;
            && own in s.inbounds && r.inbounds == s.inbounds && r.live.Keys == s.live.Keys
            && (forall tag :: tag in s.live && tag != s.inbounds[own].tag ==> r.live[tag] == s.live[tag])
  {
    var own := s.rows[email].inboundId;
    var c := ClientOfRow(s, email);
    if id in s.inbounds && id != own && HasEnabled(s.inbounds[id].clients, email) {
      EmailNamesClient(s.inbounds, id, FirstEnabled(s.inbounds[id].clients, email), own, c);
      assert false;
    }
    hide Consistent;
    hide ApiUser;
  }

  lemma ResetFrame(s: State, id: int, email: string, a: Answers)
    requires Consistent(s) && Agrees(s) && ResetClientTraffic(s, id, email, a).Done?
    ensures var r, own := ResetClientTraffic(s, id, email, a).state, s.rows[email].inboundId;
            && own in s.inbounds && r.inbounds == s.inbounds && r.live.Keys == s.live.Keys
            && forall d :: d != own ==> AgreesAt(r, d)
  {
    hide Agreed;
    hide Emit;
    var r, own := ResetClientTraffic(s, id, email, a).state, s.rows[email].inboundId;
    ResetStaysHome(s, id, email, a);
    forall d | d != own ensures Depleted(r.rows, d) == Depleted(s.rows, d) {}
    hide ResetClientTraffic;
    FrameAgrees(s, r, own);
  }

  /** Resetting one client agrees exactly when the caller names the client's own inbound and its flow
      is plain, unless the row was enabled or the client is not served anyway. */
  lemma ResetAgreesIff(s: State, id: int, email: string, a: Answers)
    requires Consistent(s) && Agrees(s) && ResetClientTraffic(s, id, email, a).Done?
    requires !ResetClientTraffic(s, id, email, a).state.restart
    ensures Agrees(ResetClientTraffic(s, id, email, a).state) <==> ResetReachesCore(s, id, email)
  {
    hide Consistent;
    hide AgreesAt;
    hide ResetReachesCore;
    ResetAgreesHereIff(s, id, email, a);
    ResetFrame(s, id, email, a);
    hide ResetClientTraffic;
  }
}
