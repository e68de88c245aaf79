/**
 How xray/api.go turns the core's counters into one report per tag and per client.
 */
module TrafficStats {
  import opened PanelModel
  import opened PanelSteps
  import PanelLedger

  /** A counter by what its name matches. */
  datatype Stat =
    | OfTag(isInbound: bool, tag: string, isDown: bool, value: int)
    | OfUser(email: string, isDown: bool, value: int)
    | OfNothing

  predicate ForUser(s: Stat, email: string, isDown: bool) {
    s.OfUser? && s.email == email && s.isDown == isDown
  }

  predicate ForTag(s: Stat, tag: string) {
    s.OfTag? && s.tag == tag && tag != "api"
  }

  // ---- clients ------------------------------------------------------------------------------------

  function ClientStep(m: map<string, Report>, s: Stat): map<string, Report> {
    if !s.OfUser? then m
    else
      var r := if s.email in m then m[s.email] else Report(s.email, 0, 0);
      m[s.email := if s.isDown then r.(down := s.value) else r.(up := s.value)]
  }

  function ClientMap(stats: seq<Stat>): map<string, Report> {
    if stats == [] then map[] else ClientStep(ClientMap(stats[..|stats| - 1]), stats[|stats| - 1])
  }

  /** The last value of a counter, 0 without one. */
  function LastOf(stats: seq<Stat>, email: string, isDown: bool): int {
    if stats == [] then 0
    else if ForUser(stats[|stats| - 1], email, isDown) then stats[|stats| - 1].value
    else LastOf(stats[..|stats| - 1], email, isDown)
  }

  lemma {:induction false} ClientMapIsLast(stats: seq<Stat>, email: string)
    ensures email in ClientMap(stats) <==> exists k :: 0 <= k < |stats| && stats[k].OfUser? && stats[k].email == email
    ensures email in ClientMap(stats) ==>
              ClientMap(stats)[email] == Report(email, LastOf(stats, email, false), LastOf(stats, email, true))
    ensures email !in ClientMap(stats) ==> LastOf(stats, email, false) == LastOf(stats, email, true) == 0
  {
    if stats != [] {
      var front, s := stats[..|stats| - 1], stats[|stats| - 1];
      ClientMapIsLast(front, email);
      assert forall k :: 0 <= k < |front| ==> front[k] == stats[k];
      if s.OfUser? && s.email == email {
        assert stats[|stats| - 1].OfUser?;
      } else if email in ClientMap(stats) {
        var k :| 0 <= k < |front| && front[k].OfUser? && front[k].email == email;
        assert stats[k].OfUser? && stats[k].email == email;
      }
    }
  }

  /** A map as a slice, in any order. */
  ghost predicate ListsReports(reports: seq<Report>, m: map<string, Report>) {
    && PanelLedger.OncePerEmail(reports)
    && (forall i :: 0 <= i < |reports| ==> reports[i].email in m && reports[i] == m[reports[i].email])
    && (forall e :: e in m ==> Reported(reports, e))
  }

  /** The core sends each counter at most once. */
  ghost predicate EachOnce(stats: seq<Stat>) {
    forall i, j :: 0 <= i < j < |stats| && stats[i].OfUser? && stats[j].OfUser? ==>
      stats[i].email != stats[j].email || stats[i].isDown != stats[j].isDown
  }

  function UserBytes(stats: seq<Stat>): int {
    if stats == [] then 0
    else UserBytes(stats[..|stats| - 1]) + if stats[|stats| - 1].OfUser? then stats[|stats| - 1].value else 0
  }

  function ReportBytes(reports: seq<Report>): int {
    if reports == [] then 0 else PanelLedger.Bytes(reports[0]) + ReportBytes(reports[1..])
  }

  ghost function MapBytes(m: map<string, Report>): int
    decreases |m|
  {
    if m == map[] then 0
    else
      var e :| e in m;
      RestSmaller(m, e);
      PanelLedger.Bytes(m[e]) + MapBytes(m - {e})
  }

  lemma RestSmaller(m: map<string, Report>, e: string)
    requires e in m
    ensures |m - {e}| < |m|
  {
    assert (m - {e}).Keys == m.Keys - {e};
    assert |m - {e}| == |(m - {e}).Keys|;
  }

  lemma {:induction false} MapBytesTake(m: map<string, Report>, e: string)
    requires e in m
    ensures MapBytes(m) == PanelLedger.Bytes(m[e]) + MapBytes(m - {e})
    decreases |m|
  {
    RestSmaller(m, e);
    var f :| f in m && MapBytes(m) == PanelLedger.Bytes(m[f]) + MapBytes(m - {f});
    if f != e {
      RestSmaller(m, f);
      MapBytesTake(m - {f}, e);
      MapBytesTake(m - {e}, f);
      assert m - {f} - {e} == m - {e} - {f};
    }
  }

  lemma MapBytesPut(m: map<string, Report>, e: string, r: Report)
    ensures MapBytes(m[e := r]) == MapBytes(m - {e}) + PanelLedger.Bytes(r)
  {
    MapBytesTake(m[e := r], e);
    assert m[e := r] - {e} == m - {e};
  }

  lemma {:induction false} NotSeenYet(stats: seq<Stat>, s: Stat)
    requires EachOnce(stats + [s]) && s.OfUser?
    ensures LastOf(stats, s.email, s.isDown) == 0
  {
    if stats != [] {
      var front := stats[..|stats| - 1];
      assert (stats + [s])[|stats| - 1] == stats[|stats| - 1] && (stats + [s])[|stats|] == s;
      assert forall i :: 0 <= i < |front + [s]| ==>
          (front + [s])[i] == (stats + [s])[if i < |front| then i else |stats|];
      NotSeenYet(front, s);
    }
  }

  /** Nothing is lost or counted twice between the core's counters and the reports. */
  lemma {:induction false} ClientMapConserves(stats: seq<Stat>)
    requires EachOnce(stats)
    ensures MapBytes(ClientMap(stats)) == UserBytes(stats)
  {
    if stats != [] {
      var front, s := stats[..|stats| - 1], stats[|stats| - 1];
      assert forall k :: 0 <= k < |front| ==> front[k] == stats[k];
      ClientMapConserves(front);
      if s.OfUser? {
        assert front + [s] == stats;
        NotSeenYet(front, s);
        ClientMapIsLast(front, s.email);
        var m := ClientMap(front);
        MapBytesPut(m, s.email, ClientMap(stats)[s.email]);
        if s.email in m {
          MapBytesTake(m, s.email);
        } else {
          assert m - {s.email} == m;
        }
      }
    }
  }

  lemma {:induction false} ListedBytes(reports: seq<Report>, m: map<string, Report>)
    requires ListsReports(reports, m)
    ensures ReportBytes(reports) == MapBytes(m)
  {
    NoReports(reports, m);
    if reports != [] {
      var r, rest := reports[0], reports[1..];
      MapBytesTake(m, r.email);
      RestListed(reports, m);
      ListedBytes(rest, m - {r.email});
    }
  }

  lemma NoReports(reports: seq<Report>, m: map<string, Report>)
    requires ListsReports(reports, m)
    ensures m != map[] ==> reports != []
  {
    if m != map[] {
      var e :| e in m;
      assert Reported(reports, e);
    }
  }

  lemma RestListed(reports: seq<Report>, m: map<string, Report>)
    requires ListsReports(reports, m) && reports != []
    ensures ListsReports(reports[1..], m - {reports[0].email})
  {
    var rest, n := reports[1..], m - {reports[0].email};
    assert forall i :: 0 <= i < |rest| ==> rest[i] == reports[i + 1];
    forall e | e in n ensures Reported(rest, e) {
      assert Reported(reports, e);
      var r :| r in reports && r.email == e;
      assert r in rest;
    }
  }

  /** One tick of the panel is credited with exactly the bytes the core counted for known clients, and
      with all of them when every client in the counters has a row. */
  lemma {:induction false} AllDelivered(rows: Rows, reports: seq<Report>)
    requires forall r :: r in reports ==> r.email in rows
    ensures PanelLedger.Delivered(rows, reports) == ReportBytes(reports)
  {
    if reports != [] { AllDelivered(rows, reports[1..]); }
  }

  lemma CoreBytesAreDelivered(stats: seq<Stat>, reports: seq<Report>, rows: Rows)
    requires EachOnce(stats) && ListsReports(reports, ClientMap(stats))
    requires forall e :: e in ClientMap(stats) ==> e in rows
    ensures PanelLedger.OncePerEmail(reports) && PanelLedger.Delivered(rows, reports) == UserBytes(stats)
  {
    ClientMapConserves(stats);
    ListedBytes(reports, ClientMap(stats));
    AllDelivered(rows, reports);
  }

  // ---- tags ---------------------------------------------------------------------------------------

  function TagStep(m: map<string, InboundReport>, s: Stat): map<string, InboundReport> {
    if !s.OfTag? || s.tag == "api" then m
    else
      var r := if s.tag in m then m[s.tag] else InboundReport(s.isInbound, s.tag, 0, 0);
      m[s.tag := if s.isDown then r.(down := s.value) else r.(up := s.value)]
  }

  function TagMap(stats: seq<Stat>): map<string, InboundReport> {
    if stats == [] then map[] else TagStep(TagMap(stats[..|stats| - 1]), stats[|stats| - 1])
  }

  function LastOfTag(stats: seq<Stat>, tag: string, isDown: bool): int {
    if stats == [] then 0
    else if ForTag(stats[|stats| - 1], tag) && stats[|stats| - 1].isDown == isDown then stats[|stats| - 1].value
    else LastOfTag(stats[..|stats| - 1], tag, isDown)
  }

  predicate FirstForTag(stats: seq<Stat>, tag: string, k: int) {
    0 <= k < |stats| && ForTag(stats[k], tag) && forall j :: 0 <= j < k ==> !ForTag(stats[j], tag)
  }

  function TagReport(stats: seq<Stat>, tag: string, isInbound: bool): InboundReport {
    InboundReport(isInbound, tag, LastOfTag(stats, tag, false), LastOfTag(stats, tag, true))
  }

  /** A tag has one report, with the last value of each direction and the kind of the first counter:
      an inbound and an outbound of the same tag share it, and the later values win. */
  lemma {:induction false} TagMapIsLast(stats: seq<Stat>, tag: string)
    ensures tag in TagMap(stats) <==> exists k :: 0 <= k < |stats| && ForTag(stats[k], tag)
    ensures tag in TagMap(stats) ==>
              exists k :: FirstForTag(stats, tag, k) && TagMap(stats)[tag] == TagReport(stats, tag, stats[k].isInbound)
    ensures tag !in TagMap(stats) ==> LastOfTag(stats, tag, false) == LastOfTag(stats, tag, true) == 0
  {
    if stats != [] {
      var front, s := stats[..|stats| - 1], stats[|stats| - 1];
      TagMapIsLast(front, tag);
      assert forall k :: 0 <= k < |front| ==> front[k] == stats[k];
      if tag in TagMap(front) {
        var k :| FirstForTag(front, tag, k) && TagMap(front)[tag] == TagReport(front, tag, front[k].isInbound);
        assert FirstForTag(stats, tag, k);
      } else if ForTag(s, tag) {
        forall j | 0 <= j < |front| ensures !ForTag(stats[j], tag) {
          assert !ForTag(front[j], tag);
        }
        assert FirstForTag(stats, tag, |stats| - 1);
      } else {
        forall k | 0 <= k < |stats| ensures !ForTag(stats[k], tag) {
          assert k < |front| ==> !ForTag(front[k], tag);
        }
      }
    }
  }

  // ---- the loop -----------------------------------------------------------------------------------

  method GetTraffic(stats: seq<Stat>) returns (tags: map<string, InboundReport>, reports: seq<Report>)
    ensures tags == TagMap(stats)
    ensures ListsReports(reports, ClientMap(stats))
  {
    tags := map[];
    var emails: map<string, Report> := map[];
    for k := 0 to |stats|
      invariant tags == TagMap(stats[..k]) && emails == ClientMap(stats[..k])
    {
      assert stats[..k + 1][..k] == stats[..k];
      var stat := stats[k];
      if stat.OfTag? {
        tags := ProcessTraffic(stat, tags);
      } else if stat.OfUser? {
        emails := ProcessClientTraffic(stat, emails);
      }
    }
    assert stats[..|stats|] == stats;
    reports := MapToSlice(emails, stats);
  }

  method ProcessTraffic(s: Stat, trafficMap: map<string, InboundReport>) returns (r: map<string, InboundReport>)
    requires s.OfTag?
    ensures r == TagStep(trafficMap, s)
  {
    r := trafficMap;
    if s.tag == "api" {
      return;
    }
    if s.tag !in r {
      r := r[s.tag := InboundReport(s.isInbound, s.tag, 0, 0)];
    }
    var traffic := r[s.tag];
    if s.isDown {
      traffic := traffic.(down := s.value);
    } else {
      traffic := traffic.(up := s.value);
    }
    r := r[s.tag := traffic];
  }

  method ProcessClientTraffic(s: Stat, clientTrafficMap: map<string, Report>) returns (r: map<string, Report>)
    requires s.OfUser?
    ensures r == ClientStep(clientTrafficMap, s)
  {
    r := clientTrafficMap;
    if s.email !in r {
      r := r[s.email := Report(s.email, 0, 0)];
    }
    var traffic := r[s.email];
    if s.isDown {
      traffic := traffic.(down := s.value);
    } else {
      traffic := traffic.(up := s.value);
    }
    r := r[s.email := traffic];
  }

  method MapToSlice(m: map<string, Report>, ghost stats: seq<Stat>) returns (result: seq<Report>)
    requires m == ClientMap(stats)
    ensures ListsReports(result, m)
  {
    forall e | e in m ensures m[e].email == e {
      ClientMapIsLast(stats, e);
    }
    result := [];
    var todo := m.Keys;
    while todo != {}
      invariant todo <= m.Keys && PanelLedger.OncePerEmail(result)
      invariant forall i :: 0 <= i < |result| ==> result[i].email in m.Keys - todo && result[i] == m[result[i].email]
      invariant forall e :: e in m.Keys - todo ==> Reported(result, e)
      decreases todo
    {
      var e :| e in todo;
      ghost var was, left := result, todo;
      result := result + [m[e]];
      todo := todo - {e};
      forall f | f in m.Keys - todo ensures Reported(result, f) {
        if f == e {
          assert result[|was|] == m[e];
        } else {
          assert f in m.Keys - left && Reported(was, f);
          var r :| r in was && r.email == f;
          assert r in result;
        }
      }
    }
  }
}
