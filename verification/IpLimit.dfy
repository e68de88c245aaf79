/**
 The IP limit job of web/job/check_client_ip_job.go: merge what the access log shows with what is
 stored, sort by time, keep the first `limit` addresses and ban the rest. Maps are listed in any order
 and the sort need not be stable; what is proved holds for every choice.
 */
module IpLimit {
  import opened Sets

  datatype IpTime = IpTime(ip: string, ts: int)

  /** A log line with an address, an email and a time; the text of the line is not modelled. */
  datatype Line = Line(ip: string, email: string, ts: int)

  // ---- merging ------------------------------------------------------------------------------------

  function Later(m: map<string, int>, x: IpTime): map<string, int> {
    if x.ip in m && x.ts <= m[x.ip] then m else m[x.ip := x.ts]
  }

  function Overwritten(stored: seq<IpTime>): map<string, int> {
    if stored == [] then map[]
    else Overwritten(stored[..|stored| - 1])[stored[|stored| - 1].ip := stored[|stored| - 1].ts]
  }

  function MergedFrom(m: map<string, int>, seen: seq<IpTime>): map<string, int> {
    if seen == [] then m else Later(MergedFrom(m, seen[..|seen| - 1]), seen[|seen| - 1])
  }

  function Merged(stored: seq<IpTime>, seen: seq<IpTime>): map<string, int> {
    MergedFrom(Overwritten(stored), seen)
  }

  predicate Mentions(s: seq<IpTime>, ip: string) {
    exists i :: 0 <= i < |s| && s[i].ip == ip
  }

  ghost predicate Distinct(s: seq<IpTime>) {
    forall i, j :: 0 <= i < j < |s| ==> s[i].ip != s[j].ip
  }

  /** Merging adds exactly the seen addresses, and each time is the latest of those seen. */
  lemma {:induction false} MergedIsLatest(m: map<string, int>, seen: seq<IpTime>, ip: string)
    ensures ip in MergedFrom(m, seen) <==> ip in m || Mentions(seen, ip)
    ensures ip in m ==> MergedFrom(m, seen)[ip] >= m[ip]
    ensures forall i :: 0 <= i < |seen| && seen[i].ip == ip ==> MergedFrom(m, seen)[ip] >= seen[i].ts
    ensures ip in MergedFrom(m, seen) ==>
              (ip in m && MergedFrom(m, seen)[ip] == m[ip])
              || exists i :: 0 <= i < |seen| && seen[i].ip == ip && seen[i].ts == MergedFrom(m, seen)[ip]
  {
    if seen != [] {
      var front, x := seen[..|seen| - 1], seen[|seen| - 1];
      assert forall i :: 0 <= i < |front| ==> front[i] == seen[i];
      MergedIsLatest(m, front, ip);
      if Mentions(front, ip) {
        var i :| 0 <= i < |front| && front[i].ip == ip;
        assert seen[i].ip == ip;
      }
      if ip in MergedFrom(m, seen) && ip in MergedFrom(m, front) && MergedFrom(m, seen)[ip] == MergedFrom(m, front)[ip]
         && !(ip in m && MergedFrom(m, front)[ip] == m[ip]) {
        var i :| 0 <= i < |front| && front[i].ip == ip && front[i].ts == MergedFrom(m, front)[ip];
        assert seen[i].ip == ip && seen[i].ts == MergedFrom(m, seen)[ip];
      }
      assert seen[|seen| - 1] == x;
    }
  }

  lemma {:induction false} OverwrittenIsContent(stored: seq<IpTime>, ip: string)
    requires Distinct(stored)
    ensures ip in Overwritten(stored) <==> Mentions(stored, ip)
    ensures forall i :: 0 <= i < |stored| && stored[i].ip == ip ==> Overwritten(stored)[ip] == stored[i].ts
  {
    if stored != [] {
      var front := stored[..|stored| - 1];
      assert forall i :: 0 <= i < |front| ==> front[i] == stored[i];
      OverwrittenIsContent(front, ip);
      if Mentions(front, ip) {
        var i :| 0 <= i < |front| && front[i].ip == ip;
        assert stored[i].ip == ip;
      }
      assert stored[|stored| - 1].ip == ip ==> Mentions(stored, ip);
    }
  }

  // ---- listings -----------------------------------------------------------------------------------

  function Ips(s: seq<IpTime>): set<string> {
    set i | 0 <= i < |s| :: s[i].ip
  }

  /** `s` lists the map, in some order. */
  ghost predicate Lists(s: seq<IpTime>, m: map<string, int>) {
    && Distinct(s) && Ips(s) == m.Keys
    && forall i :: 0 <= i < |s| ==> s[i].ip in m && s[i].ts == m[s[i].ip]
  }

  function IpsInOrder(s: seq<IpTime>): (r: seq<string>)
    ensures |r| == |s| && forall i :: 0 <= i < |s| ==> r[i] == s[i].ip
  {
    if s == [] then [] else [s[0].ip] + IpsInOrder(s[1..])
  }

  ghost predicate Sorted(s: seq<IpTime>) {
    forall i, j :: 0 <= i < j < |s| ==> s[i].ts <= s[j].ts
  }

  /** A possible outcome: the merged addresses in some order of time, cut at the limit. */
  ghost predicate Split(m: map<string, int>, limit: nat, kept: seq<IpTime>, banned: seq<IpTime>) {
    && Lists(kept + banned, m) && Sorted(kept + banned)
    && |kept| == if |m| > limit then limit else |m|
  }

  lemma {:induction false} DistinctSize(s: seq<IpTime>)
    requires Distinct(s)
    ensures |Ips(s)| == |s|
  {
    if s != [] {
      var front, x := s[..|s| - 1], s[|s| - 1];
      DistinctSize(front);
      assert Ips(s) == Ips(front) + {x.ip};
      assert x.ip !in Ips(front);
    }
  }

  lemma ListsSize(s: seq<IpTime>, m: map<string, int>)
    requires Lists(s, m)
    ensures |s| == |m|
  {
    DistinctSize(s);
    assert |m| == |m.Keys|;
  }

  /** Stored and banned addresses partition the merged ones, the stored list is sorted, has no
      duplicates and at most `limit` entries, no stored time is after a banned one, and something is
      banned exactly when there are more than `limit` addresses. */
  lemma SplitMeans(m: map<string, int>, limit: nat, kept: seq<IpTime>, banned: seq<IpTime>)
    requires Split(m, limit, kept, banned)
    ensures Ips(kept) + Ips(banned) == m.Keys && Ips(kept) !! Ips(banned)
    ensures Sorted(kept) && Distinct(kept) && |kept| <= limit
    ensures forall i, j :: 0 <= i < |kept| && 0 <= j < |banned| ==> kept[i].ts <= banned[j].ts
    ensures |kept| + |banned| == |m| && (banned != [] <==> |m| > limit)
  {
    ListsSize(kept + banned, m);
    JoinMeans(kept, banned);
  }

  lemma JoinMeans(a: seq<IpTime>, b: seq<IpTime>)
    requires Distinct(a + b) && Sorted(a + b)
    ensures Distinct(a) && Sorted(a) && Ips(a + b) == Ips(a) + Ips(b) && Ips(a) !! Ips(b)
    ensures forall i, j :: 0 <= i < |a| && 0 <= j < |b| ==> a[i].ts <= b[j].ts
  {
    var s := a + b;
    assert forall i :: 0 <= i < |a| ==> s[i] == a[i];
    forall i, j | 0 <= i < |a| && 0 <= j < |b| ensures a[i].ts <= b[j].ts && a[i].ip != b[j].ip {
      assert s[i] == a[i] && s[|a| + j] == b[j];
    }
    IpsJoin(a, b);
  }

  lemma IpsJoin(a: seq<IpTime>, b: seq<IpTime>)
    ensures Ips(a + b) == Ips(a) + Ips(b)
  {
    var s := a + b;
    forall ip ensures ip in Ips(s) <==> ip in Ips(a) || ip in Ips(b) {
      if ip in Ips(a) {
        var i :| 0 <= i < |a| && a[i].ip == ip;
        assert s[i].ip == ip;
      }
      if ip in Ips(b) {
        var i :| 0 <= i < |b| && b[i].ip == ip;
        assert s[|a| + i].ip == ip;
      }
    }
  }

  lemma TakeOneMore(s: seq<IpTime>, k: nat)
    requires k < |s|
    ensures Ips(s[..k + 1]) == Ips(s[..k]) + {s[k].ip}
    ensures Distinct(s) ==> s[k].ip !in Ips(s[..k])
  {
    assert s[..k + 1] == s[..k] + [s[k]];
    IpsJoin(s[..k], [s[k]]);
    assert [s[k]][0] == s[k] && Ips([s[k]]) == {s[k].ip};
  }

  lemma {:induction false} OverwrittenKeys(s: seq<IpTime>)
    ensures Overwritten(s).Keys == Ips(s)
  {
    if s != [] {
      OverwrittenKeys(s[..|s| - 1]);
      TakeOneMore(s, |s| - 1);
      assert s[..|s| - 1 + 1] == s;
    }
  }

  lemma OverwrittenStep(s: seq<IpTime>, k: nat)
    requires Distinct(s) && k < |s|
    ensures Overwritten(s[..k + 1]) == Overwritten(s[..k])[s[k].ip := s[k].ts] && s[k].ip !in Overwritten(s[..k])
  {
    assert s[..k + 1][..k] == s[..k];
    TakeOneMore(s, k);
    OverwrittenKeys(s[..k]);
  }

  lemma OverwrittenIsListed(s: seq<IpTime>, m: map<string, int>)
    requires Lists(s, m)
    ensures Overwritten(s) == m
  {
    OverwrittenKeys(s);
    forall ip | ip in m ensures Overwritten(s)[ip] == m[ip] {
      assert ip in Ips(s);
      var i :| 0 <= i < |s| && s[i].ip == ip;
      OverwrittenIsContent(s, ip);
    }
  }

  // ---- who is kept --------------------------------------------------------------------------------

  function NotLater(m: map<string, int>, x: string): set<string>
    requires x in m
  {
    set y | y in m && y != x && m[y] <= m[x]
  }

  function Earlier(m: map<string, int>, x: string): set<string>
    requires x in m
  {
    set y | y in m && m[y] < m[x]
  }

  /** Where an address stands in a sorted listing, up to ties. */
  lemma PlaceInListing(s: seq<IpTime>, m: map<string, int>, x: string, p: nat)
    requires Lists(s, m) && Sorted(s) && p < |s| && s[p].ip == x
    ensures x in m && |Earlier(m, x)| <= p <= |NotLater(m, x)|
  {
    DistinctSize(s[..p]);
    forall y | y in Ips(s[..p]) ensures y in NotLater(m, x) {
      var i :| 0 <= i < p && s[i].ip == y;
    }
    SubsetSize(Ips(s[..p]), NotLater(m, x));
    forall y | y in Earlier(m, x) ensures y in Ips(s[..p]) {
      assert y in Ips(s);
      var i :| 0 <= i < |s| && s[i].ip == y;
      assert s[..p][i].ip == y;
    }
    SubsetSize(Earlier(m, x), Ips(s[..p]));
  }

  /** The place of an entry among others: before or after those of the same time. */
  function Place(s: seq<IpTime>, ts: int, afterTies: bool): (p: nat)
    ensures p <= |s|
    ensures Sorted(s) ==> forall i :: 0 <= i < |s| ==> (i < p <==> s[i].ts < ts || (afterTies && s[i].ts == ts))
  {
    if s == [] then 0
    else if s[0].ts < ts || (afterTies && s[0].ts == ts) then
      assert forall i :: 0 < i < |s| ==> s[i] == s[1..][i - 1];
      1 + Place(s[1..], ts, afterTies)
    else 0
  }

  lemma Inserted(s: seq<IpTime>, m: map<string, int>, x: string, afterTies: bool) returns (r: seq<IpTime>, p: nat)
    requires x in m && Lists(s, m - {x}) && Sorted(s)
    ensures Lists(r, m) && Sorted(r) && p < |r| && r[p].ip == x
    ensures p == if afterTies then |NotLater(m, x)| else |Earlier(m, x)|
  {
    p := Place(s, m[x], afterTies);
    var e := IpTime(x, m[x]);
    r := s[..p] + [e] + s[p..];
    InsertedLists(s, m, x, p);
    InsertedIsSorted(s, e, p);
    PlaceCounts(s, m, x, afterTies);
  }

  lemma PlaceCounts(s: seq<IpTime>, m: map<string, int>, x: string, afterTies: bool)
    requires x in m && Lists(s, m - {x}) && Sorted(s)
    ensures Place(s, m[x], afterTies) == if afterTies then |NotLater(m, x)| else |Earlier(m, x)|
  {
    var p := Place(s, m[x], afterTies);
    var want := if afterTies then NotLater(m, x) else Earlier(m, x);
    DistinctSize(s[..p]);
    forall y ensures y in Ips(s[..p]) <==> y in want { BeforePlace(s, m, x, afterTies, y); }
    hide Place;
    hide Ips;
    hide Lists;
    assert Ips(s[..p]) == want;
  }

  lemma BeforePlace(s: seq<IpTime>, m: map<string, int>, x: string, afterTies: bool, y: string)
    requires x in m && Lists(s, m - {x}) && Sorted(s)
    ensures y in Ips(s[..Place(s, m[x], afterTies)]) <==> y in if afterTies then NotLater(m, x) else Earlier(m, x)
  {
    var p := Place(s, m[x], afterTies);
    if y in (if afterTies then NotLater(m, x) else Earlier(m, x)) {
      assert y in Ips(s);
      var i :| 0 <= i < |s| && s[i].ip == y;
      assert s[..p][i].ip == y;
    }
    if y in Ips(s[..p]) {
      var i :| 0 <= i < p && s[..p][i].ip == y;
      assert s[i].ip == y;
    }
  }

  lemma InsertedIsSorted(s: seq<IpTime>, e: IpTime, p: nat)
    requires Sorted(s) && p <= |s|
    requires forall i :: 0 <= i < p ==> s[i].ts <= e.ts
    requires forall i :: p <= i < |s| ==> e.ts <= s[i].ts
    ensures Sorted(s[..p] + [e] + s[p..])
  {
  }

  lemma InsertedIps(s: seq<IpTime>, e: IpTime, p: nat)
    requires p <= |s|
    ensures Ips(s[..p] + [e] + s[p..]) == Ips(s) + {e.ip}
  {
    IpsJoin(s[..p], [e]);
    IpsJoin(s[..p] + [e], s[p..]);
    IpsJoin(s[..p], s[p..]);
    assert s[..p] + s[p..] == s && [e][0] == e;
    assert Ips([e]) == {e.ip};
  }

  lemma InsertedIsDistinct(s: seq<IpTime>, e: IpTime, p: nat)
    requires p <= |s| && Distinct(s) && e.ip !in Ips(s)
    ensures Distinct(s[..p] + [e] + s[p..])
  {
    forall i | 0 <= i < |s| ensures s[i].ip != e.ip {
      assert s[i].ip in Ips(s);
    }
  }

  lemma InsertedLists(s: seq<IpTime>, m: map<string, int>, x: string, p: nat)
    requires x in m && Lists(s, m - {x}) && p <= |s|
    ensures Lists(s[..p] + [IpTime(x, m[x])] + s[p..], m)
  {
    var e := IpTime(x, m[x]);
    InsertedIps(s, e, p);
    InsertedIsDistinct(s, e, p);
    assert Ips(s) + {x} == m.Keys;
    var r := s[..p] + [e] + s[p..];
    forall i | 0 <= i < |r| ensures r[i].ip in m && r[i].ts == m[r[i].ip] {
      var y := if i < p then s[i] else if i == p then e else s[i - 1];
      assert r[i] == y;
    }
  }

  /** One more entry, put after those of its time or earlier. */
  lemma SortStep(r: seq<IpTime>, done: map<string, int>, x: IpTime)
    requires Lists(r, done) && Sorted(r) && x.ip !in done
    ensures var p := Place(r, x.ts, true);
            Lists(r[..p] + [x] + r[p..], done[x.ip := x.ts]) && Sorted(r[..p] + [x] + r[p..])
  {
    var p := Place(r, x.ts, true);
    var more := done[x.ip := x.ts];
    assert more - {x.ip} == done;
    InsertedLists(r, more, x.ip, p);
    InsertedIsSorted(r, x, p);
  }

  lemma {:induction false} SortedListing(m: map<string, int>) returns (s: seq<IpTime>)
    ensures Lists(s, m) && Sorted(s)
    decreases |m|
  {
    if m == map[] {
      s := [];
    } else {
      var x :| x in m;
      assert |(m - {x}).Keys| < |m.Keys| by { assert (m - {x}).Keys == m.Keys - {x}; }
      var t := SortedListing(m - {x});
      var p;
      s, p := Inserted(t, m, x, true);
    }
  }

  lemma CutListing(s: seq<IpTime>, m: map<string, int>, limit: nat) returns (kept: seq<IpTime>, banned: seq<IpTime>)
    requires Lists(s, m) && Sorted(s)
    ensures Split(m, limit, kept, banned) && kept + banned == s && |kept| == if |m| > limit then limit else |m|
  {
    ListsSize(s, m);
    var n := if |m| > limit then limit else |m|;
    kept, banned := s[..n], s[n..];
    assert kept + banned == s;
  }

  ghost predicate AlwaysKept(m: map<string, int>, limit: nat, x: string) {
    forall kept, banned :: Split(m, limit, kept, banned) ==> Mentions(kept, x)
  }

  ghost predicate AlwaysBanned(m: map<string, int>, limit: nat, x: string) {
    forall kept, banned :: Split(m, limit, kept, banned) ==> Mentions(banned, x)
  }

  lemma FoundInSplit(m: map<string, int>, limit: nat, kept: seq<IpTime>, banned: seq<IpTime>, x: string)
    returns (p: nat)
    requires Split(m, limit, kept, banned) && x in m
    ensures p < |kept + banned| && (kept + banned)[p].ip == x
    ensures Mentions(kept, x) <==> p < |kept|
    ensures Mentions(banned, x) <==> p >= |kept|
  {
    var s := kept + banned;
    assert x in Ips(s);
    p :| 0 <= p < |s| && s[p].ip == x;
    assert forall i :: 0 <= i < |kept| ==> s[i] == kept[i];
    assert forall i :: 0 <= i < |banned| ==> s[|kept| + i] == banned[i];
    assert p < |kept| ==> kept[p].ip == x;
    assert p >= |kept| ==> banned[p - |kept|].ip == x;
  }

  /** Whatever the order of the map and the sort, an address is kept exactly when fewer than `limit`
      others are as stored. That the address was stored before does not enter. */
  lemma AlwaysKeptIff(m: map<string, int>, limit: nat, x: string)
    requires x in m
    ensures AlwaysKept(m, limit, x) <==> |NotLater(m, x)| < limit
  {
    if |NotLater(m, x)| < limit {
      forall kept, banned | Split(m, limit, kept, banned) ensures Mentions(kept, x) {
        var p := FoundInSplit(m, limit, kept, banned, x);
        PlaceInListing(kept + banned, m, x, p);
        SplitMeans(m, limit, kept, banned);
      }
    } else {
      var t := SortedListing(m - {x});
      var s, p := Inserted(t, m, x, true);
      NotKeptAt(s, m, limit, x, p);
    }
  }

  lemma NotKeptAt(s: seq<IpTime>, m: map<string, int>, limit: nat, x: string, p: nat)
    requires Lists(s, m) && Sorted(s) && limit <= p < |s| && s[p].ip == x
    ensures !AlwaysKept(m, limit, x)
  {
    ListsSize(s, m);
    var kept, banned := CutListing(s, m, limit);
    forall i | 0 <= i < |kept| ensures kept[i].ip != x {
      assert s[i] == kept[i];
    }
  }

  /** An address is banned whatever the order exactly when `limit` others are older. */
  lemma AlwaysBannedIff(m: map<string, int>, limit: nat, x: string)
    requires x in m
    ensures AlwaysBanned(m, limit, x) <==> |Earlier(m, x)| >= limit
  {
    if |Earlier(m, x)| >= limit {
      forall kept, banned | Split(m, limit, kept, banned) ensures Mentions(banned, x) {
        var p := FoundInSplit(m, limit, kept, banned, x);
        PlaceInListing(kept + banned, m, x, p);
        SplitMeans(m, limit, kept, banned);
      }
    } else {
      var t := SortedListing(m - {x});
      var s, p := Inserted(t, m, x, false);
      ListsSize(s, m);
      var kept, banned := CutListing(s, m, limit);
      NotBannedAt(s, m, limit, x, p, kept, banned);
    }
  }

  lemma NotBannedAt(s: seq<IpTime>, m: map<string, int>, limit: nat, x: string, p: nat, kept: seq<IpTime>,
                    banned: seq<IpTime>)
    requires Split(m, limit, kept, banned) && kept + banned == s && p < |kept| && s[p].ip == x
    ensures !AlwaysBanned(m, limit, x)
  {
    forall i | 0 <= i < |banned| ensures banned[i].ip != x {
      assert s[|kept| + i] == banned[i];
    }
  }

  predicate NewcomersAreLater(stored: seq<IpTime>, m: map<string, int>) {
    forall y, x :: y in m && !Mentions(stored, y) && x in m && Mentions(stored, x) ==> m[x] < m[y]
  }

  /** Only later newcomers leave the stored addresses alone: a full record keeps its addresses when
      every other address is later than all of theirs. */
  lemma LatecomersAreBanned(stored: seq<IpTime>, seen: seq<IpTime>, limit: nat, kept: seq<IpTime>, banned: seq<IpTime>)
    requires Distinct(stored) && |stored| == limit && Split(Merged(stored, seen), limit, kept, banned)
    requires NewcomersAreLater(stored, Merged(stored, seen))
    ensures Ips(kept) == Ips(stored)
  {
    var m := Merged(stored, seen);
    forall x | x in Ips(stored) ensures x in Ips(kept) {
      StoredIsKept(stored, seen, limit, x);
      assert Mentions(kept, x);
    }
    SplitMeans(m, limit, kept, banned);
    DistinctSize(kept);
    DistinctSize(stored);
    SubsetEqual(Ips(stored), Ips(kept));
  }

  lemma StoredIsKept(stored: seq<IpTime>, seen: seq<IpTime>, limit: nat, x: string)
    requires Distinct(stored) && |stored| == limit && x in Ips(stored)
    requires NewcomersAreLater(stored, Merged(stored, seen))
    ensures x in Merged(stored, seen) && AlwaysKept(Merged(stored, seen), limit, x)
  {
    var m := Merged(stored, seen);
    assert Mentions(stored, x);
    OverwrittenIsContent(stored, x);
    MergedIsLatest(Overwritten(stored), seen, x);
    forall y | y in NotLater(m, x) ensures y in Ips(stored) - {x} {
      assert Mentions(stored, y);
    }
    SubsetSize(NotLater(m, x), Ips(stored) - {x});
    DistinctSize(stored);
    AlwaysKeptIff(m, limit, x);
  }

  /** The stored address that was seen last. */
  lemma {:induction false} LastStored(stored: seq<IpTime>, m: map<string, int>) returns (x: string)
    requires stored != [] && forall i :: 0 <= i < |stored| ==> stored[i].ip in m
    ensures x in Ips(stored) && x in m && forall i :: 0 <= i < |stored| ==> m[stored[i].ip] <= m[x]
  {
    var front, last := stored[..|stored| - 1], stored[|stored| - 1].ip;
    assert stored[|stored| - 1].ip in Ips(stored);
    if front == [] {
      x := last;
    } else {
      assert forall i :: 0 <= i < |front| ==> front[i] == stored[i];
      x := LastStored(front, m);
      assert x in Ips(stored) by {
        var i :| 0 <= i < |front| && front[i].ip == x;
        assert stored[i].ip == x;
      }
      if m[last] > m[x] { x := last; }
    }
  }

  /** A full record keeps all its addresses, whatever the order, exactly when every newcomer is later
      than each of them. */
  lemma StoredAreKeptIff(stored: seq<IpTime>, seen: seq<IpTime>, limit: nat)
    requires Distinct(stored) && |stored| == limit
    ensures (forall x :: x in Ips(stored) ==> AlwaysKept(Merged(stored, seen), limit, x))
            <==> NewcomersAreLater(stored, Merged(stored, seen))
  {
    var m := Merged(stored, seen);
    forall i | 0 <= i < |stored| ensures stored[i].ip in m {
      OverwrittenIsContent(stored, stored[i].ip);
      MergedIsLatest(Overwritten(stored), seen, stored[i].ip);
    }
    if NewcomersAreLater(stored, m) {
      forall x | x in Ips(stored) ensures AlwaysKept(m, limit, x) {
        StoredIsKept(stored, seen, limit, x);
      }
    } else {
      var y, x :| y in m && !Mentions(stored, y) && x in m && Mentions(stored, x) && m[x] >= m[y];
      NewcomerCostsOne(stored, m, limit, y, x);
    }
  }

  lemma NewcomerCostsOne(stored: seq<IpTime>, m: map<string, int>, limit: nat, y: string, x: string)
    requires Distinct(stored) && |stored| == limit && forall i :: 0 <= i < |stored| ==> stored[i].ip in m
    requires y in m && !Mentions(stored, y) && x in m && Mentions(stored, x) && m[x] >= m[y]
    ensures exists z :: z in Ips(stored) && !AlwaysKept(m, limit, z)
  {
    var z := LastStored(stored, m);
    assert m[y] <= m[x] <= m[z];
    forall w | w in Ips(stored) - {z} + {y} ensures w in NotLater(m, z) {
      if w != y {
        var i :| 0 <= i < |stored| && stored[i].ip == w;
      }
    }
    DistinctSize(stored);
    assert y !in Ips(stored);
    SubsetSize(Ips(stored) - {z} + {y}, NotLater(m, z));
    AlwaysKeptIff(m, limit, z);
  }

  lemma SubsetEqual<T>(a: set<T>, b: set<T>)
    requires a <= b && |b| <= |a|
    ensures a == b
  {
    SubsetSize(b - a, b);
    assert b == a + (b - a);
    assert |b| == |a| + |b - a|;
  }

  /** The stored and still active address of a client with limit 1 is banned when another address is
      seen before the client's last packet: the code comment promises the opposite. */
  lemma ActiveOriginalIsBanned(x: string, y: string, first: int, other: int, last: int)
    requires x != y && first < other < last
    ensures var m := Merged([IpTime(x, first)], [IpTime(y, other), IpTime(x, last)]);
            AlwaysKept(m, 1, y) && AlwaysBanned(m, 1, x)
  {
    var stored, seen := [IpTime(x, first)], [IpTime(y, other), IpTime(x, last)];
    var m := Merged(stored, seen);
    assert stored[..0] == [] && seen[..1] == [IpTime(y, other)] && seen[..1][..0] == [];
    var afterY := Later(map[x := first], IpTime(y, other));
    assert MergedFrom(map[x := first], seen[..1]) == afterY == map[x := first, y := other];
    assert Overwritten(stored) == map[x := first];
    assert m == Later(MergedFrom(map[x := first], seen[..1]), seen[1]);
    assert m == Later(afterY, IpTime(x, last)) == map[x := last, y := other];
    assert NotLater(m, y) == {} && Earlier(m, x) == {y};
    AlwaysKeptIff(m, 1, y);
    AlwaysBannedIff(m, 1, x);
  }

  // ---- the job ------------------------------------------------------------------------------------

  /** What the lookup of the client by email gives: no inbound (or one without settings); a client
      without a limit, in a disabled inbound, or not in the inbound found; or a limit. */
  datatype Lookup = NoInbound | NoLimit | Limit(n: nat)

  /** What one update does to the record of a client. */
  ghost predicate Updated(before: seq<IpTime>, shown: map<string, int>, lookup: Lookup, works: bool,
                          after: seq<IpTime>, clean: bool) {
    match lookup
    case NoInbound => after == before && !clean
    case NoLimit => Lists(after, shown) && !clean
    case Limit(n) =>
      if n == 0 then Lists(after, shown) && !clean
      else if !works then after == before && !clean
      else exists banned, listed :: Lists(listed, shown) && Split(Merged(before, listed), n, after, banned)
                              && clean == (banned != [])
  }

  /** Without an inbound, or without a log to write bans to, the record stays; without a limit it becomes
      what was seen. With one it holds at most that many of the stored and seen addresses, each with its
      later time, and the log is to be cleaned exactly when there were more. */
  lemma UpdateLeaves(before: seq<IpTime>, shown: map<string, int>, lookup: Lookup, works: bool,
                     after: seq<IpTime>, clean: bool)
    requires Updated(before, shown, lookup, works, after, clean) && Distinct(before)
    ensures lookup.NoInbound? || (lookup.Limit? && lookup.n > 0 && !works) ==> after == before && !clean
    ensures lookup.NoLimit? || (lookup.Limit? && lookup.n == 0) ==>
              !clean && Distinct(after) && Ips(after) == shown.Keys
              && forall k :: 0 <= k < |after| ==> after[k].ip in shown && after[k].ts == shown[after[k].ip]
    ensures lookup.Limit? && lookup.n > 0 && works ==>
              var all := Ips(before) + shown.Keys;
              && |after| == (if |all| > lookup.n then lookup.n else |all|) && (clean <==> |all| > lookup.n)
              && Distinct(after) && Ips(after) <= all
              && forall k :: 0 <= k < |after| ==> IsLaterTime(before, shown, after[k])
  {
    if lookup.Limit? && lookup.n > 0 && works {
      var banned, listed :| Lists(listed, shown) && Split(Merged(before, listed), lookup.n, after, banned)
                            && clean == (banned != []);
      var m := Merged(before, listed);
      hide Split;
      hide Lists;
      SplitMeans(m, lookup.n, after, banned);
      MergedHolds(before, shown, listed);
      SplitTimes(m, lookup.n, after, banned);
      DistinctSize(after);
      assert |m| == |m.Keys|;
      assert m.Keys == Ips(before) + shown.Keys;
    }
  }

  /** The time is that of the record or that of the log, and neither is later. */
  predicate IsLaterTime(before: seq<IpTime>, shown: map<string, int>, x: IpTime) {
    && (x in before || (x.ip in shown && x.ts == shown[x.ip]))
    && (x.ip in shown ==> x.ts >= shown[x.ip])
    && forall k :: 0 <= k < |before| && before[k].ip == x.ip ==> x.ts >= before[k].ts
  }

  lemma SplitTimes(m: map<string, int>, limit: nat, kept: seq<IpTime>, banned: seq<IpTime>)
    requires Split(m, limit, kept, banned)
    ensures |kept| == if |m| > limit then limit else |m|
    ensures forall k :: 0 <= k < |kept| ==> kept[k].ip in m && kept[k].ts == m[kept[k].ip]
  {
    forall k | 0 <= k < |kept| ensures kept[k].ip in m && kept[k].ts == m[kept[k].ip] {
      assert (kept + banned)[k] == kept[k];
    }
  }

  lemma MergedHolds(before: seq<IpTime>, shown: map<string, int>, listed: seq<IpTime>)
    requires Distinct(before) && Lists(listed, shown)
    ensures Merged(before, listed).Keys == Ips(before) + shown.Keys
    ensures forall ip :: ip in Merged(before, listed) ==>
              IsLaterTime(before, shown, IpTime(ip, Merged(before, listed)[ip]))
  {
    var m, old' := Merged(before, listed), Overwritten(before);
    OverwrittenKeys(before);
    forall ip
      ensures ip in m <==> ip in Ips(before) || ip in shown
      ensures ip in m ==> IsLaterTime(before, shown, IpTime(ip, m[ip]))
    {
      MergedIsLatest(old', listed, ip);
      OverwrittenIsContent(before, ip);
      ListedMentions(listed, shown, ip);
      if ip in m { MergedTime(before, shown, listed, ip); }
    }
  }

  lemma ListedMentions(listed: seq<IpTime>, shown: map<string, int>, ip: string)
    requires Lists(listed, shown)
    ensures Mentions(listed, ip) <==> ip in shown
  {
    assert ip in Ips(listed) <==> ip in shown;
  }

  lemma MergedTime(before: seq<IpTime>, shown: map<string, int>, listed: seq<IpTime>, ip: string)
    requires Distinct(before) && Lists(listed, shown) && ip in Merged(before, listed)
    ensures IsLaterTime(before, shown, IpTime(ip, Merged(before, listed)[ip]))
  {
    var m, old' := Merged(before, listed), Overwritten(before);
    MergedIsLatest(old', listed, ip);
    OverwrittenIsContent(before, ip);
    ListedMentions(listed, shown, ip);
    if ip in shown {
      var i :| 0 <= i < |listed| && listed[i].ip == ip;
      assert listed[i].ts == shown[ip];
    }
    if ip in old' {
      var i :| 0 <= i < |before| && before[i].ip == ip;
      assert before[i] == IpTime(ip, old'[ip]) && before[i] in before;
    }
    hide Overwritten;
    hide Merged;
    hide MergedFrom;
  }

  class CheckClientIpJob {
    var records: map<string, seq<IpTime>>
    var disAllowedIps: seq<string>

    constructor ()
      ensures records == map[] && disAllowedIps == []
    {
      records, disAllowedIps := map[], [];
    }

    /** The latest time of each address of each client; loopback lines are left out. */
    method ScanLog(lines: seq<Line>) returns (shown: map<string, map<string, int>>)
      ensures shown == Shown(lines)
    {
      shown := map[];
      for k := 0 to |lines|
        invariant shown == Shown(lines[..k])
      {
        var line := lines[k];
        assert lines[..k + 1][..k] == lines[..k];
        if line.ip == "127.0.0.1" || line.ip == "::1" {
          continue;
        }
        if line.email !in shown {
          shown := shown[line.email := map[]];
        }
        if line.ip !in shown[line.email] || line.ts > shown[line.email][line.ip] {
          shown := shown[line.email := shown[line.email][line.ip := line.ts]];
        } else {
          assert shown[line.email := shown[line.email]] == shown;
        }
      }
      assert lines[..|lines|] == lines;
    }

    /** A map as a slice, in any order. */
    method ToSlice(m: map<string, int>) returns (s: seq<IpTime>)
      ensures Lists(s, m)
    {
      s := [];
      var rest := m.Keys;
      while rest != {}
        invariant rest <= m.Keys && Distinct(s) && Ips(s) == m.Keys - rest
        invariant forall i :: 0 <= i < |s| ==> s[i].ip in m && s[i].ts == m[s[i].ip]
        decreases rest
      {
        var ip :| ip in rest;
        assert ip !in Ips(s);
        IpsJoin(s, [IpTime(ip, m[ip])]);
        assert Ips([IpTime(ip, m[ip])]) == {ip} by { assert [IpTime(ip, m[ip])][0].ip == ip; }
        s := s + [IpTime(ip, m[ip])];
        rest := rest - {ip};
      }
    }

    /** sort.Slice by time: some sorted rearrangement. */
    method SortByTime(s: seq<IpTime>) returns (r: seq<IpTime>)
      requires Distinct(s)
      ensures Lists(r, Overwritten(s)) && Sorted(r)
    {
      r := [];
      for k := 0 to |s|
        invariant Lists(r, Overwritten(s[..k])) && Sorted(r)
      {
        OverwrittenStep(s, k);
        SortStep(r, Overwritten(s[..k]), s[k]);
        var p := Place(r, s[k].ts, true);
        r := r[..p] + [s[k]] + r[p..];
      }
      assert s[..|s|] == s;
    }

    /** `works`: the limit log opens. */
    method UpdateInboundClientIps(email: string, listed: seq<IpTime>, ghost shown: map<string, int>, lookup: Lookup,
                                  works: bool)
      returns (shouldCleanLog: bool)
      requires email in records && Lists(listed, shown)
      modifies this
      ensures records.Keys == old(records).Keys && records == old(records)[email := records[email]]
      ensures Updated(old(records)[email], shown, lookup, works, records[email], shouldCleanLog)
      ensures lookup.Limit? && lookup.n > 0 && works ==>
                exists banned :: Split(Merged(old(records)[email], listed), lookup.n, records[email], banned)
                    && disAllowedIps == IpsInOrder(banned)
    {
      if lookup.NoInbound? {
        return false;
      }
      if lookup.NoLimit? || lookup.n == 0 {
        records := records[email := listed];
        return false;
      }
      var limitIp := lookup.n;
      var ipMap := MergeIps(records[email], listed);
      var allIps := ToSlice(ipMap);
      OverwrittenIsListed(allIps, ipMap);
      allIps := SortByTime(allIps);
      disAllowedIps := [];
      if !works {
        return false;
      }
      ghost var banned;
      shouldCleanLog, banned := KeepOldest(email, allIps, limitIp, ipMap);
      assert Split(Merged(old(records)[email], listed), lookup.n, records[email], banned);
    }

    method KeepOldest(email: string, allIps: seq<IpTime>, limitIp: nat, ghost ipMap: map<string, int>)
      returns (shouldCleanLog: bool, ghost banned: seq<IpTime>)
      requires email in records && disAllowedIps == [] && Lists(allIps, ipMap) && Sorted(allIps)
      modifies this
      ensures records.Keys == old(records).Keys && records == old(records)[email := records[email]]
      ensures Split(ipMap, limitIp, records[email], banned) && shouldCleanLog == (banned != [])
      ensures disAllowedIps == IpsInOrder(banned)
    {
      ListsSize(allIps, ipMap);
      ghost var kept;
      kept, banned := CutListing(allIps, ipMap, limitIp);
      shouldCleanLog := false;
      if |allIps| > limitIp {
        shouldCleanLog := true;
        var keptIps, bannedIps := allIps[..limitIp], allIps[limitIp..];
        assert keptIps == kept && bannedIps == banned by { assert keptIps + bannedIps == kept + banned; }
        for i := 0 to |bannedIps|
          invariant |disAllowedIps| == i && records == old(records)
          invariant forall k :: 0 <= k < i ==> disAllowedIps[k] == bannedIps[k].ip
        {
          disAllowedIps := disAllowedIps + [bannedIps[i].ip];
        }
        records := records[email := keptIps];
      } else {
        assert allIps == kept && banned == [] by { assert kept + banned == allIps; }
        records := records[email := allIps];
      }
    }

    method MergeIps(stored: seq<IpTime>, seen: seq<IpTime>) returns (ipMap: map<string, int>)
      ensures ipMap == Merged(stored, seen)
    {
      ipMap := map[];
      for k := 0 to |stored|
        invariant ipMap == Overwritten(stored[..k])
      {
        assert stored[..k + 1][..k] == stored[..k];
        ipMap := ipMap[stored[k].ip := stored[k].ts];
      }
      assert stored[..|stored|] == stored;
      for k := 0 to |seen|
        invariant ipMap == MergedFrom(Overwritten(stored), seen[..k])
      {
        assert seen[..k + 1][..k] == seen[..k];
        if seen[k].ip !in ipMap || seen[k].ts > ipMap[seen[k].ip] {
          ipMap := ipMap[seen[k].ip := seen[k].ts];
        }
      }
      assert seen[..|seen|] == seen;
    }

    /** One client of the log: with no record it gets what was seen, otherwise its record is updated. */
    method ProcessClient(email: string, shown: map<string, int>, lookup: Lookup, works: bool) returns (clean: bool)
      modifies this
      ensures records.Keys == old(records).Keys + {email} && records == old(records)[email := records[email]]
      ensures Recorded(old(records), shown, lookup, works, email, records[email], clean)
    {
      var ipsWithTime := ToSlice(shown);
      if email !in records {
        records := records[email := ipsWithTime];
        return false;
      }
      clean := UpdateInboundClientIps(email, ipsWithTime, shown, lookup, works);
    }

    /** One pass over the log. Clients it does not mention keep their records; the log is to be
        cleaned exactly when the update of some client (those in `cleaned`) asks for it. */
    method ProcessLogFile(lines: seq<Line>, lookups: map<string, Lookup>, works: bool)
      returns (shouldCleanLog: bool, ghost cleaned: set<string>)
      requires Shown(lines).Keys <= lookups.Keys
      modifies this
      ensures records.Keys == old(records).Keys + Shown(lines).Keys
      ensures forall e :: e in old(records) && e !in Shown(lines) ==> records[e] == old(records)[e]
      ensures forall e :: e in Shown(lines) ==>
                Recorded(old(records), Shown(lines)[e], lookups[e], works, e, records[e], e in cleaned)
      ensures shouldCleanLog <==> cleaned != {}
      ensures cleaned <= Shown(lines).Keys
    {
      hide Shown;
      hide Updated;
      var inboundClientIps := ScanLog(lines);
      shouldCleanLog, cleaned := false, {};
      var emails := inboundClientIps.Keys;
      ghost var was := records;
      while emails != {}
        invariant emails <= inboundClientIps.Keys && cleaned <= inboundClientIps.Keys - emails
        invariant shouldCleanLog <==> cleaned != {}
        invariant records.Keys == was.Keys + (inboundClientIps.Keys - emails)
        invariant forall e :: e in was && (e !in inboundClientIps || e in emails) ==> records[e] == was[e]
        invariant forall e :: e in inboundClientIps && e !in emails ==>
                    Recorded(was, inboundClientIps[e], lookups[e], works, e, records[e], e in cleaned)
        decreases emails
      {
        var email :| email in emails;
        ghost var before := records;
        var clean := ProcessClient(email, inboundClientIps[email], lookups[email], works);
        assert Recorded(was, inboundClientIps[email], lookups[email], works, email, records[email], clean);
        shouldCleanLog := clean || shouldCleanLog;
        if clean {
          cleaned := cleaned + {email};
        }
        emails := emails - {email};
      }
    }
  }

  /** What one pass does for a client that the log shows. */
  ghost predicate Recorded(before: map<string, seq<IpTime>>, shown: map<string, int>, lookup: Lookup, works: bool,
                           email: string, after: seq<IpTime>, clean: bool) {
    if email in before then Updated(before[email], shown, lookup, works, after, clean)
    else Lists(after, shown) && !clean
  }

  /** A client without a record gets what was seen; another's record is updated. */
  lemma RecordLeaves(before: map<string, seq<IpTime>>, shown: map<string, int>, lookup: Lookup, works: bool,
                     email: string, after: seq<IpTime>, clean: bool)
    requires Recorded(before, shown, lookup, works, email, after, clean)
    ensures email !in before ==> !clean && Distinct(after) && Ips(after) == shown.Keys
                                 && forall k :: 0 <= k < |after| ==> after[k].ip in shown
                                                                     && after[k].ts == shown[after[k].ip]
    ensures email in before ==> Updated(before[email], shown, lookup, works, after, clean)
  {
    hide Updated;
  }

  /** What a log shows: for each email the latest time of each address that is not loopback. */
  function Shown(lines: seq<Line>): map<string, map<string, int>> {
    if lines == [] then map[]
    else
      var m, line := Shown(lines[..|lines| - 1]), lines[|lines| - 1];
      if line.ip == "127.0.0.1" || line.ip == "::1" then m
      else
        var ips := if line.email in m then m[line.email] else map[];
        m[line.email := Later(ips, IpTime(line.ip, line.ts))]
  }

  predicate Shows(line: Line, email: string, ip: string) {
    line.email == email && line.ip == ip && ip != "127.0.0.1" && ip != "::1"
  }

  /** The map built while scanning holds exactly the addresses in the log, each with its last time. */
  lemma {:induction false} ShownIsLatest(lines: seq<Line>, email: string, ip: string)
    ensures email in Shown(lines) && ip in Shown(lines)[email] <==>
              exists i :: 0 <= i < |lines| && Shows(lines[i], email, ip)
    ensures email in Shown(lines) && ip in Shown(lines)[email] ==>
              && (forall i :: 0 <= i < |lines| && Shows(lines[i], email, ip) ==> lines[i].ts <= Shown(lines)[email][ip])
              && exists i :: 0 <= i < |lines| && Shows(lines[i], email, ip) && lines[i].ts == Shown(lines)[email][ip]
  {
    if lines != [] {
      var front, line := lines[..|lines| - 1], lines[|lines| - 1];
      ShownIsLatest(front, email, ip);
      assert forall i :: 0 <= i < |front| ==> front[i] == lines[i];
      if email in Shown(front) && ip in Shown(front)[email] {
        var i :| 0 <= i < |front| && Shows(front[i], email, ip) && front[i].ts == Shown(front)[email][ip];
        assert Shows(lines[i], email, ip) && lines[i].ts == Shown(front)[email][ip];
      }
      if Shows(line, email, ip) {
        assert Shows(lines[|lines| - 1], email, ip);
      }
    }
  }
}
