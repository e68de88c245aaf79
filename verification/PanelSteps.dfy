/**
 What each panel operation does to the three copies of a client: the settings lists, the traffic
 rows and the users inside the running core (web/service/inbound.go, web/service/xray.go).
 The core is a partner: every API call may work, fail, or take effect and still report an error.
 Within one operation each call is made at most once, so its answers are a function of the call. When
 renewal panics, a call it no longer comes to counts as one that fails.
 */
module PanelSteps {
  import opened PanelModel
  import opened Renewal
  import XrayConfig

  type Table = map<int, Inbound>
  type Rows = map<string, Row>
  type Live = map<string, set<User>>

  datatype Call =
    | AddUserCall(tag: string, email: string)
    | RemoveUserCall(tag: string, email: string)
    | AddInboundCall(tag: string)
    | DelInboundCall(tag: string)

  datatype Fate = Works | LostReply | Fails

  type Answers = Call -> Fate

  datatype ConfigInbound = ConfigInbound(tag: string, protocol: Protocol, clients: seq<ConfigClient>)

  datatype State = State(inbounds: Table, rows: Rows, live: Live, restart: bool,
                         started: map<int, ConfigInbound>)

  datatype Outcome = Done(state: State) | Rejected

  // ---- the generated configuration ------------------------------------------------------------

  function Depleted(rows: Rows, id: int): set<string> {
    set e | e in rows && rows[e].inboundId == id && !rows[e].enable
  }

  predicate InConfig(ib: Inbound) {
    ib.enable && ib.protocol.RunsInXray()
  }

  function ConfigOf(s: State): map<int, ConfigInbound> {
    map id | id in s.inbounds && InConfig(s.inbounds[id]) ::
      ConfigInbound(s.inbounds[id].tag, s.inbounds[id].protocol,
                    XrayConfig.ConfigClients(s.inbounds[id].clients, Depleted(s.rows, id)))
  }

  /** The users a core holds for an inbound it has loaded. */
  function UsersOf(c: ConfigInbound): set<User> {
    set k | k in c.clients :: ConfigUser(c.protocol, k)
  }

  /** The users GetXrayConfig would give this inbound now. */
  function Emit(s: State, id: int): set<User>
    requires id in s.inbounds
  {
    var ib := s.inbounds[id];
    set c | c in ib.clients && c.enable && c.email !in Depleted(s.rows, id) :: LoadedUser(ib.protocol, c)
  }

  // ---- single API calls -------------------------------------------------------------------------

  /** AddUser (xray/api.go): the reply is good when the call works on a running inbound. */
  function AddUserReply(live: Live, p: Protocol, tag: string, fate: Fate): bool {
    !p.HasUserApi() || (tag in live && fate == Works)
  }

  function AddUserLive(live: Live, p: Protocol, tag: string, u: User, fate: Fate): Live {
    if p.HasUserApi() && tag in live && fate != Fails then live[tag := live[tag] + {u}] else live
  }

  /** RemoveUser: "User … not found." counts as good, so only a failing call or a missing inbound is bad. */
  function RemoveUserReply(live: Live, tag: string, fate: Fate): bool {
    tag in live && fate == Works
  }

  function RemoveUserLive(live: Live, tag: string, email: string, fate: Fate): Live {
    if tag in live && fate != Fails then live[tag := set u | u in live[tag] && u.email != email] else live
  }

  // ---- emails -------------------------------------------------------------------------------------

  function AllEmails(inbounds: Table): set<string> {
    set id, c | id in inbounds && c in inbounds[id].clients :: c.email
  }

  predicate Contains(emails: set<string>, email: string) {
    exists e :: e in emails && Lower(e) == Lower(email)
  }

  /** checkEmailsExistForClients finds an email: taken already, or twice in the request. */
  predicate DuplicateEmail(inbounds: Table, clients: seq<Client>) {
    exists i :: 0 <= i < |clients| && EmailClash(inbounds, clients, i)
  }

  predicate EmailClash(inbounds: Table, clients: seq<Client>, i: int)
    requires 0 <= i < |clients|
  {
    clients[i].email != "" &&
    (Contains(AllEmails(inbounds), clients[i].email) ||
     exists j :: 0 <= j < i && clients[j].email != "" && Lower(clients[j].email) == Lower(clients[i].email))
  }

  // ---- AddInboundClient ---------------------------------------------------------------------------

  function NewRow(id: int, c: Client): Row {
    Row(id, c.enable, 0, 0, 0, c.expiry, c.total, c.reset)
  }

  function Emails(clients: seq<Client>): set<string> {
    set c | c in clients && c.email != "" :: c.email
  }

  function FirstWith(clients: seq<Client>, email: string): (c: Client)
    requires exists k :: k in clients && k.email == email
    ensures c in clients && c.email == email
  {
    if clients[0].email == email then clients[0] else FirstWith(clients[1..], email)
  }

  /** AddClientStat for each client: an email that already has a row keeps it, because the insert
      into the unique column fails and its error is dropped. */
  function AddRows(rows: Rows, id: int, clients: seq<Client>): Rows {
    map e | e in rows.Keys + Emails(clients) ::
      if e in rows then rows[e] else NewRow(id, FirstWith(clients, e))
  }

  function AddedUsers(ib: Inbound, clients: seq<Client>, a: Answers): set<User> {
    set c | c in clients && c.email != "" && c.enable
        && a(AddUserCall(ib.tag, c.email)) != Fails :: ApiUser(ib.protocol, c)
  }

  function AddUsersLive(live: Live, ib: Inbound, clients: seq<Client>, a: Answers): Live {
    if ib.protocol.HasUserApi() && ib.tag in live
    then live[ib.tag := live[ib.tag] + AddedUsers(ib, clients, a)]
    else live
  }

  predicate AddNeedsRestart(live: Live, ib: Inbound, clients: seq<Client>, a: Answers) {
    exists c :: c in clients &&
      (c.email == "" || (c.enable && !AddUserReply(live, ib.protocol, ib.tag, a(AddUserCall(ib.tag, c.email)))))
  }

  predicate MissingKey(p: Protocol, clients: seq<Client>) {
    exists c :: c in clients && KeyOf(p, c) == ""
  }

  function AddInboundClient(s: State, id: int, clients: seq<Client>, a: Answers): Outcome {
    if DuplicateEmail(s.inbounds, clients) || id !in s.inbounds then Rejected
    else
      var ib := s.inbounds[id];
      if MissingKey(ib.protocol, clients) then Rejected
      else
        Done(s.(inbounds := s.inbounds[id := ib.(clients := ib.clients + clients)],
                rows := AddRows(s.rows, id, clients),
                live := AddUsersLive(s.live, ib, clients, a),
                restart := s.restart || AddNeedsRestart(s.live, ib, clients, a)))
  }

  // ---- DelInboundClient ---------------------------------------------------------------------------

  function Others(p: Protocol, clients: seq<Client>, key: string): (r: seq<Client>)
    ensures forall c :: c in r <==> c in clients && KeyOf(p, c) != key
  {
    if clients == [] then []
    else
      var most, last := clients[..|clients| - 1], clients[|clients| - 1];
      assert clients == most + [last];
      if KeyOf(p, last) == key then Others(p, most, key) else Others(p, most, key) + [last]
  }

  datatype Match = NoMatch | Match(client: Client)

  /** The last client with this key; earlier ones are dropped from the list but their rows are not. */
  function LastMatch(p: Protocol, clients: seq<Client>, key: string): (m: Match)
    ensures m.Match? ==> m.client in clients && KeyOf(p, m.client) == key
    ensures m.NoMatch? ==> forall c :: c in clients ==> KeyOf(p, c) != key
  {
    if clients == [] then NoMatch
    else
      var most, last := clients[..|clients| - 1], clients[|clients| - 1];
      assert clients == most + [last];
      if KeyOf(p, last) == key then Match(last) else LastMatch(p, most, key)
  }

  function DelInboundClient(s: State, id: int, key: string, a: Answers): Outcome {
    if id !in s.inbounds then Rejected
    else
      var ib := s.inbounds[id];
      var rest := Others(ib.protocol, ib.clients, key);
      if rest == [] then Rejected
      else
        var trimmed := s.(inbounds := s.inbounds[id := ib.(clients := rest)]);
        match LastMatch(ib.protocol, ib.clients, key)
        case NoMatch => Done(trimmed)
        case Match(c) =>
          if c.email == "" then Done(trimmed)
          else if c.email !in s.rows then Rejected
          else if c.enable && s.rows[c.email].enable then
            var fate := a(RemoveUserCall(ib.tag, c.email));
            Done(trimmed.(rows := s.rows - {c.email},
                          live := RemoveUserLive(s.live, ib.tag, c.email, fate),
                          restart := s.restart || !RemoveUserReply(s.live, ib.tag, fate)))
          else Done(trimmed.(rows := s.rows - {c.email}))
  }

  // ---- UpdateInboundClient ------------------------------------------------------------------------

  /** The index of the first client with this key, or the length of the list. */
  function FirstIndex(p: Protocol, clients: seq<Client>, key: string): (k: nat)
    ensures k <= |clients|
    ensures k < |clients| ==> KeyOf(p, clients[k]) == key
    ensures forall i :: 0 <= i < k ==> KeyOf(p, clients[i]) != key
  {
    if clients == [] then 0
    else if KeyOf(p, clients[0]) == key then 0
    else 1 + FirstIndex(p, clients[1..], key)
  }

  function EditedRow(r: Row, c: Client): Row {
    r.(enable := c.enable, expiry := c.expiry, total := c.total, reset := c.reset)
  }

  datatype RowsOutcome = RowsDone(rows: Rows) | EmailTaken

  /** UpdateClientStat, AddClientStat or DelClientStat, by which of the two emails are empty. */
  function UpdateRows(rows: Rows, id: int, oldEmail: string, c: Client): RowsOutcome {
    if c.email == "" then RowsDone(rows - {oldEmail})
    else if oldEmail == "" then RowsDone(AddRows(rows, id, [c]))
    else if oldEmail !in rows then RowsDone(rows)
    else if c.email != oldEmail && c.email in rows then EmailTaken
    else RowsDone((rows - {oldEmail})[c.email := EditedRow(rows[oldEmail], c)])
  }

  function UpdateCalls(s: State, ib: Inbound, was: Client, c: Client, a: Answers): State {
    var removeFate := a(RemoveUserCall(ib.tag, was.email));
    var removed := if was.enable then RemoveUserLive(s.live, ib.tag, was.email, removeFate) else s.live;
    var removeBad := was.enable && !RemoveUserReply(s.live, ib.tag, removeFate);
    var addFate := a(AddUserCall(ib.tag, c.email));
    var added := if c.enable then AddUserLive(removed, ib.protocol, ib.tag, ApiUser(ib.protocol, c), addFate)
      else removed;
    var addBad := c.enable && !AddUserReply(removed, ib.protocol, ib.tag, addFate);
    s.(live := added, restart := s.restart || removeBad || addBad)
  }

  /** Only the first client of the request is stored; the duplicate check looks at all of them. */
  function UpdateInboundClient(s: State, id: int, clients: seq<Client>, key: string, a: Answers): Outcome {
    if id !in s.inbounds || clients == [] then Rejected
    else
      var ib := s.inbounds[id];
      var c := clients[0];
      var k := FirstIndex(ib.protocol, ib.clients, key);
      if KeyOf(ib.protocol, c) == "" || k == |ib.clients| then Rejected
      else
        var was := ib.clients[k];
        if c.email != "" && c.email != was.email && DuplicateEmail(s.inbounds, clients) then Rejected
        else
          match UpdateRows(s.rows, id, was.email, c)
          case EmailTaken => Rejected
          case RowsDone(rows) =>
            var stored := s.(inbounds := s.inbounds[id := ib.(clients := ib.clients[k := c])], rows := rows);
            Done(if was.email == "" then stored.(restart := true) else UpdateCalls(stored, ib, was, c, a))
  }

  // ---- ResetClientTraffic -------------------------------------------------------------------------

  predicate HasEnabled(clients: seq<Client>, email: string) {
    exists c :: c in clients && c.email == email && c.enable
  }

  function FirstEnabled(clients: seq<Client>, email: string): (c: Client)
    requires HasEnabled(clients, email)
    ensures c in clients && c.email == email && c.enable
  {
    if clients[0].email == email && clients[0].enable then clients[0]
    else
      assert HasEnabled(clients[1..], email) by {
        var c :| c in clients && c.email == email && c.enable;
        assert c in clients[1..];
      }
      FirstEnabled(clients[1..], email)
  }

  function ClearedRow(r: Row): Row {
    r.(enable := true, up := 0, down := 0)
  }

  /** The row's own inbound must hold the client; the inbound searched for the user to re-add is `id`. */
  function ResetClientTraffic(s: State, id: int, email: string, a: Answers): Outcome {
    if email !in s.rows || s.rows[email].inboundId !in s.inbounds
       || !(exists c :: c in s.inbounds[s.rows[email].inboundId].clients && c.email == email) then Rejected
    else
      var row := s.rows[email];
      var cleared := s.(rows := s.rows[email := ClearedRow(row)]);
      if row.enable then Done(cleared)
      else if id !in s.inbounds then Rejected
      else
        var ib := s.inbounds[id];
        if HasEnabled(ib.clients, email) then
          var fate := a(AddUserCall(ib.tag, email));
          Done(cleared.(live := AddUserLive(s.live, ib.protocol, ib.tag,
                                              ApiUser(ib.protocol, FirstEnabled(ib.clients, email)), fate),
                        restart := s.restart || !AddUserReply(s.live, ib.protocol, ib.tag, fate)))
        else Done(cleared)
  }

  // ---- ResetAllClientTraffics ----------------------------------------------------------------------

  /** `id` -1 stands for every inbound. Only the controller raises the restart flag afterwards; the
      periodic job does not. */
  predicate InScope(row: Row, id: int) {
    if id == -1 then row.inboundId > -1 else row.inboundId == id
  }

  function ResetAllClientTraffics(s: State, id: int, byController: bool): State {
    s.(rows := map e | e in s.rows :: if InScope(s.rows[e], id) then ClearedRow(s.rows[e]) else s.rows[e],
       restart := s.restart || byController)
  }

  // ---- AddTraffic ---------------------------------------------------------------------------------

  datatype Report = Report(email: string, up: int, down: int)
  datatype InboundReport = InboundReport(isInbound: bool, tag: string, up: int, down: int)

  /** The bytes all inbound reports carry for a tag. */
  function TagUp(reports: seq<InboundReport>, tag: string): int {
    if reports == [] then 0
    else TagUp(reports[..|reports| - 1], tag) +
         (var r := reports[|reports| - 1]; if r.isInbound && r.tag == tag then r.up else 0)
  }

  function TagDown(reports: seq<InboundReport>, tag: string): int {
    if reports == [] then 0
    else TagDown(reports[..|reports| - 1], tag) +
         (var r := reports[|reports| - 1]; if r.isInbound && r.tag == tag then r.down else 0)
  }

  function AddInboundTraffic(inbounds: Table, reports: seq<InboundReport>): Table {
    map id | id in inbounds ::
      var ib := inbounds[id];
      var up, down := TagUp(reports, ib.tag), TagDown(reports, ib.tag);
      ib.(up := ib.up + up, down := ib.down + down, allTime := ib.allTime + up + down)
  }

  predicate Reported(reports: seq<Report>, email: string) {
    exists r :: r in reports && r.email == email
  }

  /** A row takes the first report with its email. */
  function FirstReport(reports: seq<Report>, email: string): (r: Report)
    ensures r.email == email
    ensures Reported(reports, email) ==> r in reports
    ensures !Reported(reports, email) ==> r == Report(email, 0, 0)
  {
    if reports == [] then Report(email, 0, 0)
    else if reports[0].email == email then reports[0]
    else FirstReport(reports[1..], email)
  }

  function Credit(row: Row, r: Report): Row {
    row.(up := row.up + r.up, down := row.down + r.down, allTime := row.allTime + r.up + r.down)
  }

  /** Delayed starts: the rows that first carry traffic now. */
  function Starting(rows: Rows, reports: seq<Report>): set<string> {
    set e | e in rows && Reported(reports, e) && rows[e].expiry < 0
  }

  /** The settings clients after some of them have been given a new expiry. */
  function WithExpiries(clients: seq<Client>, next: map<string, int>): (r: seq<Client>)
    ensures |r| == |clients|
  {
    seq(|clients|, i requires 0 <= i < |clients| =>
      if clients[i].email in next then clients[i].(expiry := next[clients[i].email]) else clients[i])
  }

  function Rescheduled(inbounds: Table, next: map<string, int>): Table {
    map id | id in inbounds :: inbounds[id].(clients := WithExpiries(inbounds[id].clients, next))
  }

  /** A negative expiry is a span: the client expires that long after now. */
  function StartExpiries(rows: Rows, reports: seq<Report>, now: int): map<string, int> {
    map e | e in Starting(rows, reports) :: now - rows[e].expiry
  }

  function AddClientTraffic(s: State, reports: seq<Report>, now: int): State {
    var next := StartExpiries(s.rows, reports, now);
    s.(inbounds := Rescheduled(s.inbounds, next),
       rows := map e | e in s.rows ::
         Credit(if e in next then s.rows[e].(expiry := next[e]) else s.rows[e], FirstReport(reports, e)))
  }

  predicate Due(row: Row, now: int) {
    row.reset > 0 && 0 < row.expiry <= now
  }

  function RenewExpiries(rows: Rows, now: int): map<string, int> {
    map e | e in rows && Due(rows[e], now) :: NextExpiry(rows[e].expiry, rows[e].reset, now)
  }

  /** The client's settings `enable` flag is not asked when the user is added back. */
  predicate Readded(s: State, now: int, id: int, c: Client) {
    id in s.inbounds && c in s.inbounds[id].clients && c.email in s.rows
    && Due(s.rows[c.email], now) && !s.rows[c.email].enable
  }

  function ReaddedUsers(s: State, now: int, a: Answers, tag: string): set<User> {
    set id, c | id in s.inbounds && c in s.inbounds[id].clients && Readded(s, now, id, c)
                && s.inbounds[id].tag == tag && s.inbounds[id].protocol.HasRawApi()
                && a(AddUserCall(tag, c.email)) != Fails :: ApiUser(s.inbounds[id].protocol, c)
  }

  predicate RenewNeedsRestart(s: State, now: int, a: Answers) {
    exists id, c :: id in s.inbounds && c in s.inbounds[id].clients && Readded(s, now, id, c) &&
      !AddUserReply(s.live, s.inbounds[id].protocol, s.inbounds[id].tag, a(AddUserCall(s.inbounds[id].tag, c.email)))
  }

  /** A client to be added back is of a protocol for which AddUser finds a key missing. */
  predicate RenewalPanics(s: State, now: int) {
    exists id, c :: id in s.inbounds && c in s.inbounds[id].clients && Readded(s, now, id, c)
                    && s.inbounds[id].protocol.Shadowsocks?
  }

  /** Both tables are saved before the first call, and the wish for a restart is returned after the
      last one, so a panic loses the wish. */
  function AutoRenewClients(s: State, now: int, a: Answers): State {
    var next := RenewExpiries(s.rows, now);
    s.(inbounds := Rescheduled(s.inbounds, next),
       rows := map e | e in s.rows ::
         if e in next then s.rows[e].(expiry := next[e], up := 0, down := 0, enable := true) else s.rows[e],
       live := map tag | tag in s.live :: s.live[tag] + ReaddedUsers(s, now, a, tag),
       restart := s.restart || (!RenewalPanics(s, now) && RenewNeedsRestart(s, now, a)))
  }

  predicate OverLimit(total: int, used: int, expiry: int, now: int) {
    (total > 0 && used >= total) || (expiry > 0 && expiry <= now)
  }

  predicate InvalidRow(r: Row, now: int) {
    r.enable && OverLimit(r.total, r.up + r.down, r.expiry, now)
  }

  /** The join with inbounds: a row whose inbound is gone is disabled without a call. */
  predicate Struck(s: State, now: int, tag: string, email: string) {
    email in s.rows && InvalidRow(s.rows[email], now) && s.rows[email].inboundId in s.inbounds
    && s.inbounds[s.rows[email].inboundId].tag == tag
  }

  function DisableInvalidClients(s: State, now: int, a: Answers): State {
    s.(rows := map e | e in s.rows :: if InvalidRow(s.rows[e], now) then s.rows[e].(enable := false) else s.rows[e],
       live := map tag | tag in s.live ::
         (set u | u in s.live[tag] && !(Struck(s, now, tag, u.email) && a(RemoveUserCall(tag, u.email)) != Fails)),
       restart := s.restart || DisableNeedsRestart(s, now, a))
  }

  predicate DisableNeedsRestart(s: State, now: int, a: Answers) {
    exists e :: e in s.rows && InvalidRow(s.rows[e], now) && s.rows[e].inboundId in s.inbounds &&
      var tag := s.inbounds[s.rows[e].inboundId].tag;
      !RemoveUserReply(s.live, tag, a(RemoveUserCall(tag, e)))
  }

  predicate InvalidInbound(ib: Inbound, now: int) {
    ib.enable && OverLimit(ib.total, ib.up + ib.down, ib.expiry, now)
  }

  predicate DelInboundReply(live: Live, tag: string, fate: Fate) {
    tag in live && fate == Works
  }

  function DisableInvalidInbounds(s: State, now: int, a: Answers): State {
    var gone := set id | id in s.inbounds && InvalidInbound(s.inbounds[id], now)
                         && a(DelInboundCall(s.inbounds[id].tag)) != Fails :: s.inbounds[id].tag;
    s.(inbounds := map id | id in s.inbounds ::
         if InvalidInbound(s.inbounds[id], now) then s.inbounds[id].(enable := false) else s.inbounds[id],
       live := s.live - gone,
       restart := s.restart || InboundsNeedRestart(s, now, a))
  }

  predicate InboundsNeedRestart(s: State, now: int, a: Answers) {
    exists id :: id in s.inbounds && InvalidInbound(s.inbounds[id], now) &&
      !DelInboundReply(s.live, s.inbounds[id].tag, a(DelInboundCall(s.inbounds[id].tag)))
  }

  /** Each sub-step of a tick reads the clock for itself. */
  datatype Clock = Clock(start: int, renew: int, clients: int, inbounds: int)

  /** Where renewal finds the tables. */
  function BeforeRenewal(s: State, ins: seq<InboundReport>, reports: seq<Report>, now: int): State {
    AddClientTraffic(s.(inbounds := AddInboundTraffic(s.inbounds, ins)), reports, now)
  }

  predicate TickPanics(s: State, ins: seq<InboundReport>, reports: seq<Report>, t: Clock) {
    RenewalPanics(BeforeRenewal(s, ins, reports, t.start), t.renew)
  }

  /** A panic in renewal passes through AddTraffic, which commits what has been saved and disables
      nothing. */
  function AddTraffic(s: State, ins: seq<InboundReport>, reports: seq<Report>, t: Clock, a: Answers): State {
    var renewed := AutoRenewClients(BeforeRenewal(s, ins, reports, t.start), t.renew, a);
    if TickPanics(s, ins, reports, t) then renewed
    else DisableInvalidInbounds(DisableInvalidClients(renewed, t.clients, a), t.inbounds, a)
  }

  // ---- whole inbounds -----------------------------------------------------------------------------

  /** AddInbound for an Xray protocol; `id` is the key the database gives it. The settings reach the
      core as they are: neither the enable flags nor the config rewriting is applied. */
  function AddInbound(s: State, id: int, ib: Inbound, portTaken: bool, a: Answers): Outcome
    requires id !in s.inbounds && ib.protocol.RunsInXray()
  {
    if portTaken || DuplicateEmail(s.inbounds, ib.clients) || MissingKey(ib.protocol, ib.clients)
       || (exists k :: k in s.inbounds && s.inbounds[k].tag == ib.tag) then Rejected
    else
      var fate := a(AddInboundCall(ib.tag));
      var stored := s.(inbounds := s.inbounds[id := ib], rows := AddAllRows(s.rows, id, ib.clients));
      if !ib.enable then Done(stored)
      else
        Done(stored.(live := if fate != Fails && ib.tag !in s.live then s.live[ib.tag := RawUsers(ib)] else s.live,
                     restart := s.restart || fate != Works || ib.tag in s.live))
  }

  function RawUsers(ib: Inbound): set<User> {
    set c | c in ib.clients :: ApiUser(ib.protocol, c)
  }

  /** Unlike AddInboundClient, AddInbound also inserts a row for an empty email. */
  function AddAllRows(rows: Rows, id: int, clients: seq<Client>): Rows {
    map e | e in rows.Keys + RequestEmails(clients) ::
      if e in rows then rows[e] else NewRow(id, FirstWith(clients, e))
  }

  function RequestEmails(clients: seq<Client>): set<string> {
    set c | c in clients :: c.email
  }

  function DelInbound(s: State, id: int, a: Answers): Outcome {
    if id !in s.inbounds then Rejected
    else
      var ib := s.inbounds[id];
      var fate := a(DelInboundCall(ib.tag));
      var stored := s.(inbounds := s.inbounds - {id},
                       rows := map e | e in s.rows && s.rows[e].inboundId != id :: s.rows[e]);
      if !ib.enable then Done(stored)
      else Done(stored.(live := if fate != Fails then s.live - {ib.tag} else s.live,
                        restart := s.restart || !DelInboundReply(s.live, ib.tag, fate)))
  }

  // ---- RestartXray --------------------------------------------------------------------------------

  ghost predicate DistinctTags(inbounds: Table) {
    forall i, j :: i in inbounds && j in inbounds && inbounds[i].tag == inbounds[j].tag ==> i == j
  }

  /** The users of every loaded inbound with a tag. */
  function UsersWith(cfg: map<int, ConfigInbound>, tag: string): set<User> {
    set id, k | id in cfg && cfg[id].tag == tag && k in cfg[id].clients :: ConfigUser(cfg[id].protocol, k)
  }

  /** What the core holds right after it has started with a configuration. */
  function Load(cfg: map<int, ConfigInbound>): Live {
    map tag | tag in (set id | id in cfg :: cfg[id].tag) :: UsersWith(cfg, tag)
  }

  /** The restart proper, on the state GetXrayConfig has read. */
  function Reload(s: State, force: bool): State
  {
    var cfg := ConfigOf(s);
    if !force && cfg == s.started && !s.restart then s else s.(live := Load(cfg), started := cfg)
  }

  /** RestartXray on a running core. GetXrayConfig runs AddTraffic(nil, nil) first and drops its
      wish for a restart. A panic there ends the restart too. */
  function RestartXray(s: State, force: bool, t: Clock, a: Answers): State
  {
    var ticked := AddTraffic(s, [], [], t, a).(restart := s.restart);
    if TickPanics(s, [], [], t) then ticked else Reload(ticked, force)
  }

  /** The 30-second job: it clears the flag first, so RestartXray(false) reads it as false. */
  function CheckRestartJob(s: State, t: Clock, a: Answers): State
  {
    if s.restart then RestartXray(s.(restart := false), false, t, a) else s
  }
}
