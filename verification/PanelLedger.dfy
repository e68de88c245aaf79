/**
 The bytes in the traffic rows, over whole runs. AllTime is never set back; Up and Down are, by
 renewals and resets. What those erase is the whole difference between the two.
 */
module PanelLedger {
  import opened PanelModel
  import opened PanelSteps
  import opened PanelConsistency
  import opened PanelRuns

  function Gap(r: Row): int {
    r.allTime - r.up - r.down
  }

  function Bytes(r: Report): int {
    r.up + r.down
  }

  /** The bytes a step adds to the row of an email. */
  function Counted(e: Event, email: string): int {
    if e.step.Traffic? then Bytes(FirstReport(e.step.reports, email)) else 0
  }

  function UsedAfter(row: Row, r: Report): int {
    row.up + row.down + Bytes(r)
  }

  /** The row as renewal finds it: a delayed start has been turned into an expiry by then. */
  predicate DueAfter(row: Row, reported: bool, start: int, now: int) {
    row.reset > 0 && 0 < (if reported && row.expiry < 0 then start - row.expiry else row.expiry) <= now
  }

  /** The bytes a step takes out of Up and Down of a row. */
  function Erased(s: State, e: Event, email: string): int
    requires email in s.rows
  {
    var row := s.rows[email];
    match e.step
    case ResetClient(id, em) =>
      if em == email && ResetClientTraffic(s, id, em, e.answers).Done? then row.up + row.down else 0
    case ResetAll(id, _) => if InScope(row, id) then row.up + row.down else 0
    case Traffic(_, reports, t) =>
      if DueAfter(row, Reported(reports, email), t.start, t.renew)
      then UsedAfter(row, FirstReport(reports, email)) else 0
    case ForceRestart(t) => if Due(row, t.renew) then row.up + row.down else 0
    case RestartJob(t) => if s.restart && Due(row, t.renew) then row.up + row.down else 0
    case _ => 0
  }

  lemma TrafficRow(s: State, reports: seq<Report>, now: int, email: string)
    requires email in s.rows
    ensures var rows, row := AddClientTraffic(s, reports, now).rows, s.rows[email];
            email in rows && rows[email] == Credit(
              if Reported(reports, email) && row.expiry < 0 then row.(expiry := now - row.expiry) else row,
              FirstReport(reports, email))
  {
  }

  lemma RenewRow(s: State, now: int, a: Answers, email: string)
    requires email in s.rows
    ensures var rows, row := AutoRenewClients(s, now, a).rows, s.rows[email];
            email in rows && rows[email].allTime == row.allTime
            && if Due(row, now) then rows[email].up == rows[email].down == 0
               else rows[email].up == row.up && rows[email].down == row.down
  {
  }

  /** What a tick does to one row's counters. */
  lemma TickRow(s: State, ins: seq<InboundReport>, reports: seq<Report>, t: Clock, a: Answers, email: string)
    requires email in s.rows
    ensures var r, row, rep := AddTraffic(s, ins, reports, t, a), s.rows[email], FirstReport(reports, email);
            email in r.rows
            && r.rows[email].allTime == row.allTime + Bytes(rep)
            && if DueAfter(row, Reported(reports, email), t.start, t.renew)
               then r.rows[email].up == r.rows[email].down == 0
               else r.rows[email].up == row.up + rep.up && r.rows[email].down == row.down + rep.down
  {
    hide AddClientTraffic;
    hide AutoRenewClients;
    hide AddInboundTraffic;
    var s1 := s.(inbounds := AddInboundTraffic(s.inbounds, ins));
    TrafficRow(s1, reports, t.start, email);
    RenewRow(AddClientTraffic(s1, reports, t.start), t.renew, a, email);
  }

  lemma EmptyTickRow(s: State, t: Clock, a: Answers, email: string)
    requires email in s.rows
    ensures var r, row := AddTraffic(s, [], [], t, a), s.rows[email];
            email in r.rows && r.rows[email].allTime == row.allTime
            && if Due(row, t.renew) then r.rows[email].up == r.rows[email].down == 0
               else r.rows[email].up == row.up && r.rows[email].down == row.down
  {
    TickRow(s, [], [], t, a, email);
  }

  predicate SameCounters(r: Row, q: Row) {
    r.up == q.up && r.down == q.down && r.allTime == q.allTime
  }

  /** Client edits never touch the counters of a row that stays. */
  lemma EditRow(s: State, e: Event, email: string)
    requires email in s.rows && email in Apply(s, e).rows
    requires e.step.AddClients? || e.step.DelClient? || e.step.UpdateClient?
    ensures SameCounters(s.rows[email], Apply(s, e).rows[email])
  {
    if e.step.UpdateClient? {
      hide DelInboundClient;
    } else {
      hide UpdateInboundClient;
    }
  }

  lemma InboundRow(s: State, e: Event, email: string)
    requires email in s.rows && email in Apply(s, e).rows
    requires e.step.NewInbound? || e.step.DropInbound?
    ensures SameCounters(s.rows[email], Apply(s, e).rows[email])
  {
  }

  lemma ResetRow(s: State, e: Event, email: string)
    requires email in s.rows && (e.step.ResetClient? || e.step.ResetAll?)
    ensures email in Apply(s, e).rows && Apply(s, e).rows[email].allTime == s.rows[email].allTime
    ensures Gap(Apply(s, e).rows[email]) == Gap(s.rows[email]) + Erased(s, e, email)
    ensures SameCounters(s.rows[email], Apply(s, e).rows[email])
              || Apply(s, e).rows[email].up == Apply(s, e).rows[email].down == 0
  {
  }

  lemma TickRowKeys(s: State, ins: seq<InboundReport>, reports: seq<Report>, t: Clock, a: Answers)
    ensures AddTraffic(s, ins, reports, t, a).rows.Keys == s.rows.Keys
  {
    var s1 := s.(inbounds := AddInboundTraffic(s.inbounds, ins));
    var s2 := AddClientTraffic(s1, reports, t.start);
    assert s2.rows.Keys == s.rows.Keys;
    var s3 := AutoRenewClients(s2, t.renew, a);
    assert s3.rows.Keys == s2.rows.Keys;
    assert DisableInvalidClients(s3, t.clients, a).rows.Keys == s3.rows.Keys;
  }

  lemma ReloadKeepsRows(s: State, force: bool)
    ensures Reload(s, force).rows == s.rows
  {
  }

  /** What a restart event runs on, with what it leaves in the rows. */
  lemma RestartEventRows(s: State, e: Event) returns (base: State)
    requires (e.step.ForceRestart? || (e.step.RestartJob? && s.restart))
    ensures base.rows == s.rows && Apply(s, e).rows == AddTraffic(base, [], [], e.step.clock, e.answers).rows
  {
    hide AddTraffic;
    base := if e.step.ForceRestart? then s else s.(restart := false);
    var ticked := AddTraffic(base, [], [], e.step.clock, e.answers).(restart := base.restart);
    ReloadKeepsRows(ticked, e.step.ForceRestart?);
  }

  lemma RestartRow(s: State, e: Event, email: string)
    requires email in s.rows && (e.step.ForceRestart? || e.step.RestartJob?)
    ensures email in Apply(s, e).rows && Apply(s, e).rows[email].allTime == s.rows[email].allTime
    ensures Gap(Apply(s, e).rows[email]) == Gap(s.rows[email]) + Erased(s, e, email)
    ensures SameCounters(s.rows[email], Apply(s, e).rows[email])
              || Apply(s, e).rows[email].up == Apply(s, e).rows[email].down == 0
  {
    hide AddTraffic;
    if e.step.ForceRestart? || s.restart {
      var base := RestartEventRows(s, e);
      EmptyTickRow(base, e.step.clock, e.answers, email);
    }
  }

  /** The email an update takes out of a row and the one it puts there, both not empty. */
  predicate Renames(s: State, e: Event, was: string, email: string) {
    e.step.UpdateClient? && Accepted(s, e) && was != "" && email == e.step.clients[0].email != ""
    && var ib := s.inbounds[e.step.id];
    was == ib.clients[FirstIndex(ib.protocol, ib.clients, e.step.key)].email
  }

  /** The email under which the row of `email` is found after the step. */
  function NameAfter(s: State, e: Event, email: string): string {
    if e.step.UpdateClient? && e.step.clients != [] && Renames(s, e, email, e.step.clients[0].email)
    then e.step.clients[0].email else email
  }

  /** A rename takes the row, with its counters, to the new email. */
  lemma RenameCarries(s: State, e: Event, was: string, email: string)
    requires Renames(s, e, was, email) && was in s.rows
    ensures var rows := Apply(s, e).rows;
            && email in rows && SameCounters(s.rows[was], rows[email])
            && rows.Keys == s.rows.Keys - {was} + {email} && (email in s.rows ==> email == was)
            && forall x :: x in s.rows && x != was ==> rows[x] == s.rows[x]
  {
    hide DuplicateEmail;
    hide FirstIndex;
    hide RemoveUserLive;
    hide AddUserLive;
  }

  lemma StepRow(s: State, e: Event, email: string)
    requires email in s.rows && NameAfter(s, e, email) in Apply(s, e).rows
    ensures var row, row' := s.rows[email], Apply(s, e).rows[NameAfter(s, e, email)];
            row'.allTime == row.allTime + Counted(e, email) && Gap(row') == Gap(row) + Erased(s, e, email)
  {
    hide Apply;
    hide Renames;
    if e.step.UpdateClient? && e.step.clients != [] && Renames(s, e, email, e.step.clients[0].email) {
      RenameCarries(s, e, email, e.step.clients[0].email);
    } else if e.step.Traffic? {
      TrafficStepRow(s, e, email);
    } else if e.step.ForceRestart? || e.step.RestartJob? {
      RestartRow(s, e, email);
    } else if e.step.ResetClient? || e.step.ResetAll? {
      ResetRow(s, e, email);
    } else if e.step.NewInbound? || e.step.DropInbound? {
      InboundRow(s, e, email);
    } else {
      EditRow(s, e, email);
    }
  }

  lemma TrafficStepRow(s: State, e: Event, email: string)
    requires email in s.rows && e.step.Traffic?
    ensures email in Apply(s, e).rows &&
            var row, row' := s.rows[email], Apply(s, e).rows[email];
            row'.allTime == row.allTime + Counted(e, email) && Gap(row') == Gap(row) + Erased(s, e, email)
  {
    hide AddTraffic;
    TickRow(s, e.step.ins, e.step.reports, e.step.clock, e.answers, email);
  }

  // ---- one row over a run -------------------------------------------------------------------------

  /** `names` follows one row through the run: it is there all along, and renames move it. */
  ghost predicate Follows(states: seq<State>, events: seq<Event>, names: seq<string>, n: nat)
    requires Run(states, events) && n <= |events|
  {
    && |names| > n
    && (forall i :: 0 <= i <= n ==> names[i] in states[i].rows)
    && forall i :: 0 <= i < n ==> names[i + 1] == NameAfter(states[i], events[i], names[i])
  }

  function CountedAlong(events: seq<Event>, names: seq<string>, n: nat): int
    requires n <= |events| && n <= |names|
  {
    if n == 0 then 0 else CountedAlong(events, names, n - 1) + Counted(events[n - 1], names[n - 1])
  }

  ghost function ErasedAlong(states: seq<State>, events: seq<Event>, names: seq<string>, n: nat): int
    requires Run(states, events) && n <= |events| && Follows(states, events, names, n)
  {
    if n == 0 then 0 else ErasedAlong(states, events, names, n - 1) + Erased(states[n - 1], events[n - 1], names[n - 1])
  }

  /** As long as a row exists, under whatever email, AllTime grows by exactly the bytes reported for it,
      and the gap between AllTime and Up + Down by exactly the bytes that renewals and resets erase. */
  lemma {:induction false} RowAlongRun(states: seq<State>, events: seq<Event>, names: seq<string>, n: nat)
    requires Run(states, events) && n <= |events| && Follows(states, events, names, n)
    ensures var row, row' := states[0].rows[names[0]], states[n].rows[names[n]];
            && row'.allTime == row.allTime + CountedAlong(events, names, n)
            && Gap(row') == Gap(row) + ErasedAlong(states, events, names, n)
  {
    hide Apply;
    hide Counted;
    hide Erased;
    hide NameAfter;
    if n > 0 {
      RowAlongRun(states, events, names, n - 1);
      assert states[n - 1 + 1] == Apply(states[n - 1], events[n - 1]);
      assert names[n - 1 + 1] == NameAfter(states[n - 1], events[n - 1], names[n - 1]);
      StepRow(states[n - 1], events[n - 1], names[n - 1]);
    }
  }

  // ---- no row ever owes bytes ---------------------------------------------------------------------

  predicate Solvent(r: Row) {
    0 <= r.up && 0 <= r.down && r.up + r.down <= r.allTime
  }

  ghost predicate AllSolvent(s: State) {
    forall e :: e in s.rows ==> Solvent(s.rows[e])
  }

  predicate Nonnegative(e: Event) {
    e.step.Traffic? ==> forall r :: r in e.step.reports ==> r.up >= 0 && r.down >= 0
  }

  lemma NewRowsAreSolvent(s: State, e: Event, email: string)
    requires AllSolvent(s) && email !in s.rows && email in Apply(s, e).rows
    requires e.step.AddClients? || e.step.UpdateClient? || e.step.NewInbound?
    ensures Solvent(Apply(s, e).rows[email])
  {
    if e.step.UpdateClient? {
      MovedRowIsSolvent(s, e, email);
    } else {
      hide UpdateInboundClient;
      hide DuplicateEmail;
    }
  }

  lemma MovedRowIsSolvent(s: State, e: Event, email: string)
    requires AllSolvent(s) && email !in s.rows && e.step.UpdateClient? && email in Apply(s, e).rows
    ensures Solvent(Apply(s, e).rows[email])
  {
    hide DuplicateEmail;
    hide FirstIndex;
  }

  lemma StepKeepsSolvent(s: State, e: Event)
    requires AllSolvent(s) && Nonnegative(e)
    ensures AllSolvent(Apply(s, e))
  {
    forall email | email in Apply(s, e).rows ensures Solvent(Apply(s, e).rows[email]) {
      if email !in s.rows {
        OnlyEditsAddRows(s, e, email);
        NewRowsAreSolvent(s, e, email);
      } else if e.step.Traffic? {
        TickRow(s, e.step.ins, e.step.reports, e.step.clock, e.answers, email);
      } else if e.step.ForceRestart? || e.step.RestartJob? {
        RestartRow(s, e, email);
      } else if e.step.ResetClient? || e.step.ResetAll? {
        ResetRow(s, e, email);
      } else if e.step.NewInbound? || e.step.DropInbound? {
        InboundRow(s, e, email);
      } else {
        EditRow(s, e, email);
      }
    }
  }

  lemma OnlyEditsAddRows(s: State, e: Event, email: string)
    requires email !in s.rows && email in Apply(s, e).rows
    ensures e.step.AddClients? || e.step.UpdateClient? || e.step.NewInbound?
  {
    if e.step.Traffic? {
      TickRowKeys(s, e.step.ins, e.step.reports, e.step.clock, e.answers);
    } else if e.step.ForceRestart? || (e.step.RestartJob? && s.restart) {
      var base := RestartEventRows(s, e);
      TickRowKeys(base, [], [], e.step.clock, e.answers);
    } else if e.step.ResetClient? || e.step.ResetAll? || e.step.DelClient? || e.step.DropInbound? {
      ShrinkingRows(s, e);
    }
  }

  lemma ShrinkingRows(s: State, e: Event)
    requires e.step.ResetClient? || e.step.ResetAll? || e.step.DelClient? || e.step.DropInbound?
    ensures Apply(s, e).rows.Keys <= s.rows.Keys
  {
  }

  /** AllTime minus Up and Down never goes negative, in any row, along any run. */
  lemma {:induction false} RunKeepsSolvent(states: seq<State>, events: seq<Event>, n: nat)
    requires Run(states, events) && n <= |events| && AllSolvent(states[0])
    requires forall i :: 0 <= i < |events| ==> Nonnegative(events[i])
    ensures AllSolvent(states[n])
  {
    hide Apply;
    hide AllSolvent;
    if n > 0 {
      RunKeepsSolvent(states, events, n - 1);
      StepKeepsSolvent(states[n - 1], events[n - 1]);
    }
  }

  // ---- all rows at once ---------------------------------------------------------------------------

  /** The sum of AllTime over some rows, in any order. */
  ghost function TotalAllTime(rows: Rows, emails: set<string>): int
    requires emails <= rows.Keys
  {
    if emails == {} then 0 else
      var e :| e in emails;
      rows[e].allTime + TotalAllTime(rows, emails - {e})
  }

  /** The bytes of the reports that find a row. */
  function Delivered(rows: Rows, reports: seq<Report>): int {
    if reports == [] then 0
    else (if reports[0].email in rows then Bytes(reports[0]) else 0) + Delivered(rows, reports[1..])
  }

  predicate OncePerEmail(reports: seq<Report>) {
    forall i, j :: 0 <= i < j < |reports| ==> reports[i].email != reports[j].email
  }

  /** The bytes that the rows of some emails take from the reports. */
  ghost function Taken(reports: seq<Report>, emails: set<string>): int {
    if emails == {} then 0 else
      var e :| e in emails;
      Bytes(FirstReport(reports, e)) + Taken(reports, emails - {e})
  }

  lemma {:induction false} TakenWithout(reports: seq<Report>, emails: set<string>, e: string)
    requires e in emails
    ensures Taken(reports, emails) == Bytes(FirstReport(reports, e)) + Taken(reports, emails - {e})
    decreases emails
  {
    var f :| f in emails && Taken(reports, emails) == Bytes(FirstReport(reports, f)) + Taken(reports, emails - {f});
    if f != e {
      TakenWithout(reports, emails - {f}, e);
      TakenWithout(reports, emails - {e}, f);
      assert emails - {f} - {e} == emails - {e} - {f};
    }
  }

  lemma {:induction false} TakenOfNothing(emails: set<string>)
    ensures Taken([], emails) == 0
    decreases emails
  {
    if emails != {} {
      var e :| e in emails;
      TakenWithout([], emails, e);
      TakenOfNothing(emails - {e});
    }
  }

  lemma {:induction false} TakenSkips(r: Report, rest: seq<Report>, emails: set<string>)
    requires r.email !in emails
    ensures Taken([r] + rest, emails) == Taken(rest, emails)
    decreases emails
  {
    if emails != {} {
      var e :| e in emails;
      TakenWithout([r] + rest, emails, e);
      TakenWithout(rest, emails, e);
      TakenSkips(r, rest, emails - {e});
      assert ([r] + rest)[1..] == rest;
    }
  }

  lemma TakenIsDelivered(rows: Rows, reports: seq<Report>)
    requires OncePerEmail(reports)
    ensures Taken(reports, rows.Keys) == Delivered(rows, reports)
  {
    if reports == [] {
      TakenOfNothing(rows.Keys);
    } else {
      var r, rest := reports[0], reports[1..];
      assert reports == [r] + rest;
      TakenIsDelivered(rows, rest);
      if r.email in rows {
        TakenWithout(reports, rows.Keys, r.email);
        TakenWithout(rest, rows.Keys, r.email);
        TakenSkips(r, rest, rows.Keys - {r.email});
        assert FirstReport(rest, r.email) == Report(r.email, 0, 0) by {
          assert forall i :: 0 <= i < |rest| ==> rest[i].email != r.email;
        }
      } else {
        TakenSkips(r, rest, rows.Keys);
      }
    }
  }

  lemma {:induction false} TotalGrows(s: State, r: State, reports: seq<Report>, emails: set<string>)
    requires emails <= s.rows.Keys && emails <= r.rows.Keys
    requires forall e :: e in emails ==> r.rows[e].allTime == s.rows[e].allTime + Bytes(FirstReport(reports, e))
    ensures TotalAllTime(r.rows, emails) == TotalAllTime(s.rows, emails) + Taken(reports, emails)
    decreases emails
  {
    if emails != {} {
      var e :| e in emails;
      TotalWithout(s.rows, emails, e);
      TotalWithout(r.rows, emails, e);
      TakenWithout(reports, emails, e);
      TotalGrows(s, r, reports, emails - {e});
    }
  }

  lemma {:induction false} TotalWithout(rows: Rows, emails: set<string>, e: string)
    requires emails <= rows.Keys && e in emails
    ensures TotalAllTime(rows, emails) == rows[e].allTime + TotalAllTime(rows, emails - {e})
    decreases emails
  {
    var f :| f in emails && TotalAllTime(rows, emails) == rows[f].allTime + TotalAllTime(rows, emails - {f});
    if f != e {
      TotalWithout(rows, emails - {f}, e);
      TotalWithout(rows, emails - {e}, f);
      assert emails - {f} - {e} == emails - {e} - {f};
    }
  }

  /** With one report per email, a tick adds to the rows together exactly the bytes of the reports
      whose email has a row: each lands in one row, and none is counted twice or lost. */
  lemma TickConservesBytes(s: State, ins: seq<InboundReport>, reports: seq<Report>, t: Clock, a: Answers)
    requires OncePerEmail(reports)
    ensures var r := AddTraffic(s, ins, reports, t, a);
            r.rows.Keys == s.rows.Keys
            && TotalAllTime(r.rows, r.rows.Keys) == TotalAllTime(s.rows, s.rows.Keys) + Delivered(s.rows, reports)
  {
    var r := AddTraffic(s, ins, reports, t, a);
    forall e | e in s.rows
      ensures e in r.rows && r.rows[e].allTime == s.rows[e].allTime + Bytes(FirstReport(reports, e))
    {
      TickRow(s, ins, reports, t, a, e);
    }
    TotalGrows(s, r, reports, s.rows.Keys);
    TakenIsDelivered(s.rows, reports);
  }

  // ---- all rows along a run -----------------------------------------------------------------------

  lemma {:induction false} TotalSplit(rows: Rows, a: set<string>, b: set<string>)
    requires a !! b && a + b <= rows.Keys
    ensures TotalAllTime(rows, a + b) == TotalAllTime(rows, a) + TotalAllTime(rows, b)
    decreases a
  {
    if a == {} {
      assert a + b == b;
    } else {
      var e :| e in a;
      TotalWithout(rows, a + b, e);
      TotalWithout(rows, a, e);
      TotalSplit(rows, a - {e}, b);
      assert a + b - {e} == (a - {e}) + b;
    }
  }

  lemma {:induction false} TotalSame(rows: Rows, q: Rows, emails: set<string>)
    requires emails <= rows.Keys && emails <= q.Keys && forall e :: e in emails ==> q[e].allTime == rows[e].allTime
    ensures TotalAllTime(q, emails) == TotalAllTime(rows, emails)
    decreases emails
  {
    if emails != {} {
      var e :| e in emails;
      TotalWithout(rows, emails, e);
      TotalWithout(q, emails, e);
      TotalSame(rows, q, emails - {e});
    }
  }

  lemma {:induction false} TotalOfNew(rows: Rows, emails: set<string>)
    requires emails <= rows.Keys && forall e :: e in emails ==> rows[e].allTime == 0
    ensures TotalAllTime(rows, emails) == 0
    decreases emails
  {
    if emails != {} {
      var e :| e in emails;
      TotalWithout(rows, emails, e);
      TotalOfNew(rows, emails - {e});
    }
  }

  /** Some rows go, new ones come with nothing counted, the others keep what they have counted. */
  ghost predicate ComeAndGo(rows: Rows, q: Rows, gone: set<string>) {
    && gone <= rows.Keys && rows.Keys - gone <= q.Keys
    && (forall e :: e in rows && e !in gone ==> q[e].allTime == rows[e].allTime)
    && forall e :: e in q && (e !in rows || e in gone) ==> q[e].allTime == 0
  }

  lemma RowsComeAndGo(rows: Rows, q: Rows, gone: set<string>)
    requires ComeAndGo(rows, q, gone)
    ensures TotalAllTime(q, q.Keys) == TotalAllTime(rows, rows.Keys) - TotalAllTime(rows, gone)
  {
    var kept := rows.Keys - gone;
    var added := q.Keys - kept;
    assert q.Keys == added + kept && rows.Keys == gone + kept;
    TotalSplit(q, added, kept);
    TotalSplit(rows, gone, kept);
    TotalSame(rows, q, kept);
    TotalOfNew(q, added);
  }

  lemma OneRowMoves(rows: Rows, q: Rows, was: string, email: string)
    requires was in rows && email in q && (email in rows ==> email == was)
    requires q.Keys == rows.Keys - {was} + {email} && q[email].allTime == rows[was].allTime
    requires forall e :: e in rows && e != was ==> q[e] == rows[e]
    ensures TotalAllTime(q, q.Keys) == TotalAllTime(rows, rows.Keys)
  {
    TotalWithout(rows, rows.Keys, was);
    TotalWithout(q, q.Keys, email);
    assert q.Keys - {email} == rows.Keys - {was};
    TotalSame(rows, q, rows.Keys - {was});
  }

  /** The rows that a step deletes: that of the last client under the key, that of a client whose email
      becomes empty, and those of an inbound. */
  function Dropped(s: State, e: Event): (gone: set<string>)
    ensures gone <= s.rows.Keys
  {
    if !Accepted(s, e) then {}
    else
      match e.step
      case DelClient(id, key) =>
        (match LastMatch(s.inbounds[id].protocol, s.inbounds[id].clients, key)
         case NoMatch => {}
         case Match(c) => if c.email in s.rows && c.email != "" then {c.email} else {})
      case UpdateClient(id, clients, key) =>
        var ib := s.inbounds[id];
        var was := ib.clients[FirstIndex(ib.protocol, ib.clients, key)].email;
        if clients[0].email == "" && was in s.rows then {was} else {}
      case DropInbound(id) => set x | x in s.rows && s.rows[x].inboundId == id
      case _ => {}
  }

  /** The bytes of the reports of a step that find a row. */
  function DeliveredBy(s: State, e: Event): int {
    if e.step.Traffic? then Delivered(s.rows, e.step.reports) else 0
  }

  ghost predicate OneReportEach(e: Event) {
    e.step.Traffic? ==> OncePerEmail(e.step.reports)
  }

  /** One step: the rows together gain what is delivered and lose what the deleted rows had counted. */
  lemma StepConservesBytes(s: State, e: Event)
    requires OneReportEach(e)
    ensures var r := Apply(s, e);
            TotalAllTime(r.rows, r.rows.Keys)
            == TotalAllTime(s.rows, s.rows.Keys) - TotalAllTime(s.rows, Dropped(s, e)) + DeliveredBy(s, e)
  {
    if e.step.Traffic? {
      TickConservesBytes(s, e.step.ins, e.step.reports, e.step.clock, e.answers);
    } else if e.step.UpdateClient? {
      UpdateConservesBytes(s, e);
    } else {
      PlainRowsChange(s, e);
      RowsComeAndGo(s.rows, Apply(s, e).rows, Dropped(s, e));
    }
    hide Apply;
    hide Dropped;
  }

  lemma UpdateConservesBytes(s: State, e: Event)
    requires e.step.UpdateClient?
    ensures var r := Apply(s, e);
            TotalAllTime(r.rows, r.rows.Keys)
            == TotalAllTime(s.rows, s.rows.Keys) - TotalAllTime(s.rows, Dropped(s, e))
  {
    hide Apply;
    hide UpdateInboundClient;
    hide FirstIndex;
    if Accepted(s, e) {
      UpdateAccepted(s, e);
      var ib := s.inbounds[e.step.id];
      var was, email := ib.clients[FirstIndex(ib.protocol, ib.clients, e.step.key)].email, e.step.clients[0].email;
      if was != "" && email != "" && was in s.rows {
        RenameCarries(s, e, was, email);
        OneRowMoves(s.rows, Apply(s, e).rows, was, email);
      } else {
        OtherUpdateRows(s, e);
        RowsComeAndGo(s.rows, Apply(s, e).rows, Dropped(s, e));
      }
    } else {
      RejectedIsNoStep(s, e);
    }
  }

  lemma UpdateAccepted(s: State, e: Event)
    requires e.step.UpdateClient? && Accepted(s, e)
    ensures e.step.id in s.inbounds && e.step.clients != []
    ensures var ib := s.inbounds[e.step.id]; FirstIndex(ib.protocol, ib.clients, e.step.key) < |ib.clients|
  {
  }

  lemma OtherUpdateRows(s: State, e: Event)
    requires e.step.UpdateClient? && Accepted(s, e)
    requires var ib := s.inbounds[e.step.id];
             var was := ib.clients[FirstIndex(ib.protocol, ib.clients, e.step.key)].email;
             was == "" || e.step.clients[0].email == "" || was !in s.rows
    ensures ComeAndGo(s.rows, Apply(s, e).rows, Dropped(s, e))
  {
    hide DuplicateEmail;
    hide FirstIndex;
  }

  lemma PlainRowsChange(s: State, e: Event)
    requires !e.step.Traffic? && !e.step.UpdateClient?
    ensures ComeAndGo(s.rows, Apply(s, e).rows, Dropped(s, e))
  {
    hide Apply;
    hide Dropped;
    hide ComeAndGo;
    if !Accepted(s, e) {
      RejectedRows(s, e);
    } else if e.step.AddClients? || e.step.NewInbound? {
      RowsCome(s, e);
    } else if e.step.DelClient? {
      ClientRowGoes(s, e);
    } else if e.step.DropInbound? {
      InboundRowsGo(s, e);
    } else {
      RowsStay(s, e);
    }
  }

  lemma RejectedRows(s: State, e: Event)
    requires !Accepted(s, e)
    ensures ComeAndGo(s.rows, Apply(s, e).rows, Dropped(s, e))
  {
    RejectedIsNoStep(s, e);
    hide Apply;
    hide Accepted;
  }

  lemma RowsCome(s: State, e: Event)
    requires Accepted(s, e) && (e.step.AddClients? || e.step.NewInbound?)
    ensures ComeAndGo(s.rows, Apply(s, e).rows, Dropped(s, e))
  {
    hide DuplicateEmail;
    hide RequestEmails;
    hide Emails;
    hide MissingKey;
  }

  lemma ClientRowGoes(s: State, e: Event)
    requires Accepted(s, e) && e.step.DelClient?
    ensures ComeAndGo(s.rows, Apply(s, e).rows, Dropped(s, e))
  {
    hide Others;
    hide LastMatch;
    hide RemoveUserLive;
  }

  lemma InboundRowsGo(s: State, e: Event)
    requires Accepted(s, e) && e.step.DropInbound?
    ensures ComeAndGo(s.rows, Apply(s, e).rows, Dropped(s, e))
  {
    hide DelInboundReply;
  }

  lemma RowsStay(s: State, e: Event)
    requires e.step.ResetClient? || e.step.ResetAll? || e.step.ForceRestart? || e.step.RestartJob?
    ensures ComeAndGo(s.rows, Apply(s, e).rows, Dropped(s, e))
  {
    assert Dropped(s, e) == {};
    hide Dropped;
    hide Accepted;
    forall x | x in Apply(s, e).rows ensures x in s.rows { if x !in s.rows { OnlyEditsAddRows(s, e, x); } }
    hide Apply;
    forall x | x in s.rows ensures x in Apply(s, e).rows && Apply(s, e).rows[x].allTime == s.rows[x].allTime {
      if e.step.ForceRestart? || e.step.RestartJob? { RestartRow(s, e, x); } else { ResetRow(s, e, x); }
    }
  }

  ghost function DroppedAlong(states: seq<State>, events: seq<Event>, n: nat): int
    requires Run(states, events) && n <= |events|
  {
    if n == 0 then 0
    else DroppedAlong(states, events, n - 1) + TotalAllTime(states[n - 1].rows, Dropped(states[n - 1], events[n - 1]))
  }

  function DeliveredAlong(states: seq<State>, events: seq<Event>, n: nat): int
    requires n <= |events| && n <= |states|
  {
    if n == 0 then 0 else DeliveredAlong(states, events, n - 1) + DeliveredBy(states[n - 1], events[n - 1])
  }

  /** Along every run, with nothing asked of the core: what all rows have counted at
      the end, with what deleted rows had counted, is what they had at the start and what was delivered. */
  lemma {:induction false} RunConservesBytes(states: seq<State>, events: seq<Event>, n: nat)
    requires Run(states, events) && n <= |events| && forall i :: 0 <= i < |events| ==> OneReportEach(events[i])
    ensures TotalAllTime(states[n].rows, states[n].rows.Keys) + DroppedAlong(states, events, n)
            == TotalAllTime(states[0].rows, states[0].rows.Keys) + DeliveredAlong(states, events, n)
  {
    hide Apply;
    hide Dropped;
    hide DeliveredBy;
    hide TotalAllTime;
    if n > 0 {
      RunConservesBytes(states, events, n - 1);
      assert states[n - 1 + 1] == Apply(states[n - 1], events[n - 1]);
      StepConservesBytes(states[n - 1], events[n - 1]);
    }
  }
}
