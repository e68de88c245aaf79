/**
 The client filter of GetXrayConfig (web/service/xray.go): for every disabled traffic row the loop
 ranges over a slice header taken before the loop, while RemoveIndex shifts the array behind it.
 `StalePass` says what that loop does to the shared array on every input; `ConfigClients` is the
 filter it is meant to be. One pass is right exactly when the email occurs at most once or only at the
 end of the list.
 */
module XrayConfig {
  import opened PanelModel

  datatype Stat = Stat(email: string, enable: bool)

  // ---- the filter -------------------------------------------------------------------------

  /** The clients that a configuration keeps, in order. */
  function Kept(clients: seq<Client>, depleted: set<string>): (r: seq<Client>)
    ensures forall c :: c in r <==> c in clients && c.enable && c.email !in depleted
  {
    if clients == [] then []
    else if clients[0].enable && clients[0].email !in depleted then [clients[0]] + Kept(clients[1..], depleted)
    else Kept(clients[1..], depleted)
  }

  /** The clients without those of the given emails, in order. */
  function Without(clients: seq<Client>, emails: set<string>): seq<Client> {
    if clients == [] then []
    else if clients[0].email in emails then Without(clients[1..], emails)
    else [clients[0]] + Without(clients[1..], emails)
  }

  function Enabled(clients: seq<Client>): seq<Client> {
    if clients == [] then []
    else if clients[0].enable then [clients[0]] + Enabled(clients[1..])
    else Enabled(clients[1..])
  }

  function ToConfigs(clients: seq<Client>): (r: seq<ConfigClient>) {
    seq(|clients|, i requires 0 <= i < |clients| => ToConfig(clients[i]))
  }

  function Disabled(stats: seq<Stat>): set<string> {
    set t | t in stats && !t.enable :: t.email
  }

  lemma DisabledSnoc(stats: seq<Stat>, t: Stat)
    ensures Disabled(stats + [t]) == Disabled(stats) + (if t.enable then {} else {t.email})
  {
    assert forall k :: k in stats + [t] <==> k in stats || k == t;
  }

  /** What GetXrayConfig is meant to emit: "row not disabled and client enabled", in order. */
  function ConfigClients(clients: seq<Client>, depleted: set<string>): seq<ConfigClient> {
    ToConfigs(Kept(clients, depleted))
  }

  // ---- the loop as it runs ----------------------------------------------------------------

  /** RemoveIndex on the first `len` cells of a shared array: the cells after `k` move down by one,
      and the cell at `len - 1` keeps its old value. */
  function Shift(cells: seq<Client>, len: nat, k: nat): (r: seq<Client>)
    requires k < len <= |cells|
    ensures |r| == |cells|
  {
    cells[..k] + cells[k + 1..len] + cells[len - 1..]
  }

  datatype Slice = Slice(cells: seq<Client>, len: nat)

  /** The inner loop from position `i`, over the header of length `n`, after `dec` removals. */
  function StalePass(cells: seq<Client>, n: nat, i: nat, dec: nat, email: string): (r: Slice)
    requires dec <= i <= n <= |cells|
    ensures |r.cells| == |cells| && r.len <= n - dec
    decreases n - i
  {
    if i == n then Slice(cells, n - dec)
    else if cells[i].email == email then
      StalePass(Shift(cells, n - dec, i - dec), n, i + 1, dec + 1, email)
    else StalePass(cells, n, i + 1, dec, email)
  }

  /** The outer loop over the traffic rows. */
  function StalePasses(cells: seq<Client>, len: nat, stats: seq<Stat>): (r: Slice)
    requires len <= |cells|
    ensures |r.cells| == |cells| && r.len <= len
    decreases |stats|
  {
    if stats == [] then Slice(cells, len)
    else
      var before := StalePasses(cells, len, stats[..|stats| - 1]);
      var t := stats[|stats| - 1];
      if t.enable then before else StalePass(before.cells, before.len, 0, 0, t.email)
  }

  // ---- the loop is the filter -------------------------------------------------------------

  predicate OccursOnceAtMost(clients: seq<Client>, email: string) {
    forall i, j :: 0 <= i < j < |clients| ==> clients[i].email != email || clients[j].email != email
  }

  /** Once a client has the email, all after it have. */
  predicate OnlyAtTheEnd(clients: seq<Client>, email: string) {
    forall i, j :: 0 <= i < j < |clients| && clients[i].email == email ==> clients[j].email == email
  }

  predicate Removable(clients: seq<Client>, email: string) {
    OccursOnceAtMost(clients, email) || OnlyAtTheEnd(clients, email)
  }

  lemma {:induction false} StalePassNoMatch(cells: seq<Client>, n: nat, i: nat, dec: nat, email: string)
    requires dec <= i <= n <= |cells|
    requires forall j :: i <= j < n ==> cells[j].email != email
    ensures StalePass(cells, n, i, dec, email) == Slice(cells, n - dec)
    decreases n - i
  {
    if i < n {
      StalePassNoMatch(cells, n, i + 1, dec, email);
    }
  }

  lemma {:induction false} StalePassSkips(cells: seq<Client>, n: nat, i: nat, k: nat, email: string)
    requires i <= k < n <= |cells|
    requires forall j :: i <= j < k ==> cells[j].email != email
    ensures StalePass(cells, n, i, 0, email) == StalePass(cells, n, k, 0, email)
    decreases k - i
  {
    if i < k {
      StalePassSkips(cells, n, i + 1, k, email);
    }
  }

  lemma {:induction false} WithoutConcat(a: seq<Client>, b: seq<Client>, emails: set<string>)
    ensures Without(a + b, emails) == Without(a, emails) + Without(b, emails)
  {
    if a == [] {
      assert a + b == b;
    } else {
      assert (a + b)[1..] == a[1..] + b;
      WithoutConcat(a[1..], b, emails);
    }
  }

  lemma {:induction false} WithoutNone(a: seq<Client>, emails: set<string>)
    requires forall i :: 0 <= i < |a| ==> a[i].email !in emails
    ensures Without(a, emails) == a
  {
    if a != [] {
      WithoutNone(a[1..], emails);
    }
  }

  lemma {:induction false} WithoutTwice(a: seq<Client>, x: set<string>, y: set<string>)
    ensures Without(Without(a, x), y) == Without(a, x + y)
  {
    if a != [] {
      WithoutTwice(a[1..], x, y);
    }
  }

  lemma {:induction false} WithoutKeepsOnce(a: seq<Client>, x: set<string>, email: string)
    requires OccursOnceAtMost(a, email)
    ensures OccursOnceAtMost(Without(a, x), email)
    ensures forall c :: c in Without(a, x) ==> c in a
  {
    if a != [] {
      WithoutKeepsOnce(a[1..], x, email);
      var r := Without(a[1..], x);
      if a[0].email == email {
        assert forall c :: c in a[1..] ==> c.email != email;
        assert forall i :: 0 <= i < |r| ==> r[i] in r;
      }
    }
  }

  lemma {:induction false} KeptIsEnabledWithout(a: seq<Client>, depleted: set<string>)
    ensures Kept(a, depleted) == Enabled(Without(a, depleted))
  {
    if a != [] {
      KeptIsEnabledWithout(a[1..], depleted);
    }
  }

  lemma WithoutAt(view: seq<Client>, k: nat, email: string)
    requires k < |view| && view[k].email == email && OccursOnceAtMost(view, email)
    ensures Without(view, {email}) == view[..k] + view[k + 1..]
  {
    var rest := [view[k]] + view[k + 1..];
    assert view == view[..k] + rest;
    assert rest[1..] == view[k + 1..];
    WithoutConcat(view[..k], rest, {email});
    WithoutNone(view[..k], {email});
    WithoutNone(view[k + 1..], {email});
  }

  // ---- one pass, on every list --------------------------------------------------------------

  /** What a pass leaves in the slice. */
  function Left(cells: seq<Client>, n: nat, i: nat, dec: nat, email: string): seq<Client>
    requires dec <= i <= n <= |cells|
  {
    var r := StalePass(cells, n, i, dec, email);
    r.cells[..r.len]
  }

  /** The cells freed so far, and the last one of the slice, hold the last client of the list. */
  predicate TailIs(cells: seq<Client>, n: nat, i: nat, dec: nat, last: Client)
    requires dec <= i <= n <= |cells|
  {
    i < n ==> forall j :: n - dec - 1 <= j < n ==> cells[j] == last
  }

  lemma ShiftKeepsTail(cells: seq<Client>, n: nat, i: nat, dec: nat, last: Client)
    requires dec <= i < n <= |cells| && TailIs(cells, n, i, dec, last)
    ensures TailIs(Shift(cells, n - dec, i - dec), n, i + 1, dec + 1, last)
  {
  }

  /** Positions below i - dec are settled. */
  lemma {:induction false} SettledStays(cells: seq<Client>, n: nat, i: nat, dec: nat, email: string)
    requires dec <= i <= n <= |cells|
    ensures |Left(cells, n, i, dec, email)| >= i - dec && Left(cells, n, i, dec, email)[..i - dec] == cells[..i - dec]
    decreases n - i
  {
    if i < n {
      if cells[i].email == email {
        var shifted := Shift(cells, n - dec, i - dec);
        SettledStays(shifted, n, i + 1, dec + 1, email);
        assert shifted[..i - dec] == cells[..i - dec];
      } else {
        SettledStays(cells, n, i + 1, dec, email);
        assert cells[..i + 1 - dec][..i - dec] == cells[..i - dec];
      }
    }
  }

  /** The clients of other emails. */
  function Others(clients: seq<Client>, email: string): nat {
    |Without(clients, {email})|
  }

  function Unread(cells: seq<Client>, n: nat, i: nat, dec: nat): seq<Client>
    requires dec <= i <= n <= |cells|
  {
    if i < n - dec then cells[i..n - dec] else []
  }

  lemma OthersFirst(c: Client, rest: seq<Client>, email: string)
    ensures Others([c] + rest, email) == Others(rest, email) + if c.email == email then 0 else 1
  {
    assert ([c] + rest)[1..] == rest;
  }

  lemma OthersStep(clients: seq<Client>, email: string)
    requires clients != []
    ensures Others(clients, email) == Others(clients[1..], email) + if clients[0].email == email then 0 else 1
  {
  }

  /** After a removal the client next in line has moved below the reading position. */
  lemma UnreadAfterRemoval(cells: seq<Client>, n: nat, i: nat, dec: nat)
    requires dec <= i < n <= |cells|
    ensures var u := Unread(cells, n, i, dec);
            Unread(Shift(cells, n - dec, i - dec), n, i + 1, dec + 1) == if |u| >= 2 then u[2..] else []
  {
    var shifted := Shift(cells, n - dec, i - dec);
    assert forall j :: i - dec <= j < n - dec - 1 ==> shifted[j] == cells[j + 1];
  }

  /** One turn of the loop, and its end. */
  lemma LeftStep(cells: seq<Client>, n: nat, i: nat, dec: nat, email: string)
    requires dec <= i <= n <= |cells|
    ensures Left(cells, n, i, dec, email) == if i == n then cells[..n - dec] else if cells[i].email == email
              then Left(Shift(cells, n - dec, i - dec), n, i + 1, dec + 1, email) else Left(cells, n, i + 1, dec, email)
  {
  }

  lemma FewerUnread(cells: seq<Client>, n: nat, i: nat, dec: nat, email: string)
    requires dec <= i < n <= |cells|
    ensures Others(Unread(Shift(cells, n - dec, i - dec), n, i + 1, dec + 1), email)
            <= Others(Unread(cells, n, i, dec), email)
  {
    var u := Unread(cells, n, i, dec);
    UnreadAfterRemoval(cells, n, i, dec);
    hide Unread;
    hide Shift;
    if |u| >= 2 {
      OthersStep(u, email);
      OthersStep(u[1..], email);
      assert u[1..][1..] == u[2..];
    }
  }

  /** A client of another email is read where it stands, so it is one of the unread. */
  lemma UnreadAfterKeeping(cells: seq<Client>, n: nat, i: nat, dec: nat, last: Client)
    requires dec <= i < n <= |cells| && TailIs(cells, n, i, dec, last) && cells[i].email != last.email
    ensures TailIs(cells, n, i + 1, dec, last)
    ensures Others(Unread(cells, n, i, dec), last.email) == 1 + Others(Unread(cells, n, i + 1, dec), last.email)
  {
    var u := Unread(cells, n, i, dec);
    assert i < n - dec && u[0] == cells[i];
    assert u[1..] == Unread(cells, n, i + 1, dec);
    OthersStep(u, last.email);
  }

  /** When the list ends with the email, only clients of other emails that are read are ever kept. */
  lemma {:induction false} KeepsOnlyRead(cells: seq<Client>, n: nat, i: nat, dec: nat, last: Client)
    requires dec <= i <= n <= |cells| && TailIs(cells, n, i, dec, last)
    ensures |Left(cells, n, i, dec, last.email)| <= i - dec + Others(Unread(cells, n, i, dec), last.email)
    decreases n - i
  {
    hide Left;
    hide Others;
    hide Unread;
    hide TailIs;
    hide Shift;
    hide StalePass;
    LeftStep(cells, n, i, dec, last.email);
    if i < n && cells[i].email == last.email {
      ShiftKeepsTail(cells, n, i, dec, last);
      KeepsOnlyRead(Shift(cells, n - dec, i - dec), n, i + 1, dec + 1, last);
      FewerUnread(cells, n, i, dec, last.email);
    } else if i < n {
      UnreadAfterKeeping(cells, n, i, dec, last);
      KeepsOnlyRead(cells, n, i + 1, dec, last);
    }
  }

  predicate HasEmail(clients: seq<Client>, email: string) {
    exists j :: 0 <= j < |clients| && clients[j].email == email
  }

  /** When the list ends with another email, a client of the email that is still in the slice after
      the first removal stays, or the one whose reading drops it does. */
  lemma {:induction false} LeavesOne(cells: seq<Client>, n: nat, i: nat, dec: nat, email: string, last: Client, w: nat)
    requires 1 <= dec <= i <= n <= |cells| && TailIs(cells, n, i, dec, last) && last.email != email
    requires i - dec <= w < n - dec && cells[w].email == email
    ensures HasEmail(Left(cells, n, i, dec, email), email)
    decreases n - i
  {
    if cells[i].email == email {
      assert i < n - dec - 1;
      ShiftKeepsTail(cells, n, i, dec, last);
      var shifted := Shift(cells, n - dec, i - dec);
      assert shifted[i - 1] == cells[i];
      LeavesOne(shifted, n, i + 1, dec + 1, email, last, i - 1);
    } else if w == i - dec {
      SettledStays(cells, n, i + 1, dec, email);
      var out := Left(cells, n, i + 1, dec, email);
      assert out[w] == out[..i + 1 - dec][w] == cells[w];
    } else {
      LeavesOne(cells, n, i + 1, dec, email, last, w);
    }
  }

  /** When the list ends with the email and all clients between the settled and the unread ones have
      it, another client ahead is lost, or reading it settles one that should go. */
  lemma {:induction false} LosesOrLeavesOne(cells: seq<Client>, n: nat, i: nat, dec: nat, last: Client)
    requires 1 <= dec <= i <= n - dec && n <= |cells| && TailIs(cells, n, i, dec, last)
    requires forall j :: i - dec <= j < i ==> cells[j].email == last.email
    requires Others(Unread(cells, n, i, dec), last.email) > 0
    ensures var out := Left(cells, n, i, dec, last.email);
            HasEmail(out, last.email) || |out| < i - dec + Others(Unread(cells, n, i, dec), last.email)
    decreases n - i
  {
    hide TailIs;
    hide HasEmail;
    hide Left;
    hide Shift;
    hide Others;
    SomeUnread(cells, n, i, dec, last.email);
    hide Unread;
    if cells[i].email != last.email {
      SettlesOne(cells, n, i, dec, last.email);
    } else {
      var shifted := AfterMatch(cells, n, i, dec, last);
      if shifted[i].email == last.email {
        LosesOrLeavesOne(shifted, n, i + 1, dec + 1, last);
      } else {
        KeepsOnlyRead(shifted, n, i + 1, dec + 1, last);
      }
    }
  }

  lemma SomeUnread(cells: seq<Client>, n: nat, i: nat, dec: nat, email: string)
    requires dec <= i <= n <= |cells| && Others(Unread(cells, n, i, dec), email) > 0
    ensures i < n - dec
  {
  }

  /** Reading a client of another email settles the first one between. */
  lemma SettlesOne(cells: seq<Client>, n: nat, i: nat, dec: nat, email: string)
    requires 1 <= dec <= i < n <= |cells| && cells[i].email != email && cells[i - dec].email == email
    ensures HasEmail(Left(cells, n, i, dec, email), email)
  {
    SettledStays(cells, n, i + 1, dec, email);
    var out := Left(cells, n, i + 1, dec, email);
    assert out[i - dec] == out[..i + 1 - dec][i - dec] == cells[i - dec];
  }

  /** Reading a match with clients to come: one of them moves below the reading position. */
  lemma AfterMatch(cells: seq<Client>, n: nat, i: nat, dec: nat, last: Client) returns (shifted: seq<Client>)
    requires 1 <= dec <= i < n - dec && n <= |cells| && TailIs(cells, n, i, dec, last)
    requires cells[i].email == last.email && Others(Unread(cells, n, i, dec), last.email) > 0
    ensures shifted == Shift(cells, n - dec, i - dec) && i + 1 <= n - (dec + 1)
              && TailIs(shifted, n, i + 1, dec + 1, last)
    ensures Left(cells, n, i, dec, last.email) == Left(shifted, n, i + 1, dec + 1, last.email)
    ensures forall j :: i - dec <= j <= i ==> shifted[j] == cells[j + 1]
    ensures Others(Unread(cells, n, i, dec), last.email)
            == Others(Unread(shifted, n, i + 1, dec + 1), last.email) + if shifted[i].email == last.email then 0 else 1
  {
    var u, email := Unread(cells, n, i, dec), last.email;
    shifted := Shift(cells, n - dec, i - dec);
    OthersStep(u, email);
    OthersStep(u[1..], email);
    assert u[1..][1..] == u[2..];
    UnreadAfterRemoval(cells, n, i, dec);
    ShiftKeepsTail(cells, n, i, dec, last);
    assert shifted[i] == cells[i + 1] == u[1];
  }

  lemma {:induction false} WithoutHasNone(clients: seq<Client>, email: string)
    ensures !HasEmail(Without(clients, {email}), email)
  {
    if clients != [] {
      WithoutHasNone(clients[1..], email);
      var rest := Without(clients[1..], {email});
      forall j | 0 <= j <= |rest| && clients[0].email != email ensures ([clients[0]] + rest)[j].email != email {
        assert j > 0 ==> rest[j - 1].email != email;
      }
    }
  }

  lemma {:induction false} OthersPositive(clients: seq<Client>, email: string, p: nat)
    requires p < |clients| && clients[p].email != email
    ensures Others(clients, email) > 0
  {
    if p > 0 && clients[0].email == email { OthersPositive(clients[1..], email, p - 1); }
  }

  lemma {:induction false} OthersZero(clients: seq<Client>, email: string)
    requires forall j :: 0 <= j < |clients| ==> clients[j].email == email
    ensures Others(clients, email) == 0
  {
    if clients != [] { OthersZero(clients[1..], email); }
  }

  /** The state of a pass right after it has removed the first match. */
  lemma AfterFirst(cells: seq<Client>, n: nat, k: nat, email: string) returns (shifted: seq<Client>)
    requires k < n <= |cells| && cells[k].email == email && forall j :: 0 <= j < k ==> cells[j].email != email
    ensures shifted == Shift(cells, n, k) && Left(cells, n, 0, 0, email) == Left(shifted, n, k + 1, 1, email)
    ensures TailIs(shifted, n, k + 1, 1, cells[n - 1]) && shifted[..k] == cells[..k]
    ensures forall j :: k <= j < n - 1 ==> shifted[j] == cells[j + 1]
    ensures Unread(shifted, n, k + 1, 1) == if k + 2 <= n then cells[k + 2..n] else []
  {
    shifted := Shift(cells, n, k);
    StalePassSkips(cells, n, 0, k, email);
  }

  lemma WithoutEnd(view: seq<Client>, k: nat, email: string)
    requires k <= |view| && (forall j :: 0 <= j < k ==> view[j].email != email)
    requires forall j :: k <= j < |view| ==> view[j].email == email
    ensures Without(view, {email}) == view[..k]
  {
    var front, back := view[..k], view[k..];
    assert view == front + back;
    WithoutConcat(front, back, {email});
    WithoutNone(front, {email});
    OthersZero(back, email);
  }

  /** All clients of the email stand at the end: the pass empties the slice from the first one on. */
  lemma EndIsCutOff(cells: seq<Client>, n: nat, k: nat, email: string)
    requires k < n <= |cells| && (forall j :: 0 <= j < k ==> cells[j].email != email)
    requires forall j :: k <= j < n ==> cells[j].email == email
    ensures Left(cells, n, 0, 0, email) == cells[..k]
  {
    hide StalePass;
    hide Shift;
    hide TailIs;
    hide Left;
    var shifted := AfterFirst(cells, n, k, email);
    SettledStays(shifted, n, k + 1, 1, email);
    KeepsOnlyRead(shifted, n, k + 1, 1, cells[n - 1]);
    OthersZero(Unread(shifted, n, k + 1, 1), email);
    hide Unread;
    hide Others;
    var out := Left(cells, n, 0, 0, email);
    assert |out| == k && out[..k] == cells[..k];
  }

  lemma WithoutFromFirst(cells: seq<Client>, n: nat, k: nat, email: string)
    requires k < n <= |cells| && cells[k].email == email && forall j :: 0 <= j < k ==> cells[j].email != email
    ensures |Without(cells[..n], {email})| == k + Others(cells[k + 1..n], email)
  {
    var front, back := cells[..k], cells[k + 1..n];
    assert cells[..n] == front + ([cells[k]] + back);
    WithoutConcat(front, [cells[k]] + back, {email});
    WithoutNone(front, {email});
    OthersFirst(cells[k], back, email);
  }

  /** Otherwise the pass leaves one in, or loses another client. */
  lemma WrongOnTheRest(cells: seq<Client>, n: nat, k: nat, m: nat, p: nat, email: string)
    requires k < n <= |cells| && cells[k].email == email && forall j :: 0 <= j < k ==> cells[j].email != email
    requires k < m < n && cells[m].email == email && k < p < n && cells[p].email != email
    ensures Left(cells, n, 0, 0, email) != Without(cells[..n], {email})
  {
    var last := cells[n - 1];
    var shifted := AfterFirst(cells, n, k, email);
    WithoutHasNone(cells[..n], email);
    WithoutFromFirst(cells, n, k, email);
    if last.email != email {
      LeavesOne(shifted, n, k + 1, 1, email, last, m - 1);
    } else {
      var after := cells[k + 1..n];
      OthersStep(after, email);
      assert after[1..] == cells[k + 2..n];
      if cells[k + 1].email != email {
        KeepsOnlyRead(shifted, n, k + 1, 1, last);
      } else {
        assert cells[k + 2..n][p - k - 2] == cells[p];
        OthersPositive(cells[k + 2..n], email, p - k - 2);
        LosesOrLeavesOne(shifted, n, k + 1, 1, last);
      }
    }
  }

  lemma LeftNoMatch(cells: seq<Client>, n: nat, i: nat, dec: nat, email: string)
    requires dec <= i <= n <= |cells| && forall j :: i <= j < n ==> cells[j].email != email
    ensures Left(cells, n, i, dec, email) == cells[..n - dec]
  {
    StalePassNoMatch(cells, n, i, dec, email);
  }

  lemma OnceIsRemoved(cells: seq<Client>, n: nat, k: nat, email: string)
    requires k < n <= |cells| && cells[k].email == email && OccursOnceAtMost(cells[..n], email)
    ensures Left(cells, n, 0, 0, email) == Without(cells[..n], {email})
  {
    hide StalePass;
    hide Left;
    hide Without;
    hide TailIs;
    hide Shift;
    hide Unread;
    assert forall j :: 0 <= j < n ==> cells[j] == cells[..n][j];
    var shifted := AfterFirst(cells, n, k, email);
    ShiftedOnce(cells, n, k, email, shifted);
    LeftNoMatch(shifted, n, k + 1, 1, email);
    WithoutAt(cells[..n], k, email);
  }

  lemma ShiftedOnce(cells: seq<Client>, n: nat, k: nat, email: string, shifted: seq<Client>)
    requires k < n <= |cells| && cells[k].email == email && OccursOnceAtMost(cells[..n], email)
    requires shifted == Shift(cells, n, k)
    ensures forall j :: k < j < n ==> shifted[j].email != email
    ensures shifted[..n - 1] == cells[..n][..k] + cells[..n][k + 1..]
  {
    var view := cells[..n];
    forall j | k < j < n ensures shifted[j].email != email {
      assert shifted[j] == view[if j < n - 1 then j + 1 else n - 1];
    }
  }

  lemma {:induction false} FirstOf(clients: seq<Client>, email: string, m: nat) returns (k: nat)
    requires m < |clients| && clients[m].email == email
    ensures k <= m && clients[k].email == email && forall j :: 0 <= j < k ==> clients[j].email != email
  {
    if j :| 0 <= j < m && clients[j].email == email {
      k := FirstOf(clients, email, j);
    } else {
      k := m;
    }
  }

  /** On every list, one pass removes the clients of the email and nothing else exactly when there is
      at most one of them or they all stand at the end. */
  lemma StalePassIsRemovalIff(cells: seq<Client>, n: nat, email: string)
    requires n <= |cells|
    ensures var r := StalePass(cells, n, 0, 0, email);
            r.cells[..r.len] == Without(cells[..n], {email}) <==> Removable(cells[..n], email)
  {
    var view := cells[..n];
    if m :| 0 <= m < n && view[m].email == email {
      var k := FirstOf(view, email, m);
      FoundPassIsRemovalIff(cells, n, k, email);
    } else {
      assert forall j :: 0 <= j < n ==> cells[j] == view[j];
      StalePassNoMatch(cells, n, 0, 0, email);
      WithoutNone(view, {email});
    }
  }

  lemma FoundPassIsRemovalIff(cells: seq<Client>, n: nat, k: nat, email: string)
    requires k < n <= |cells| && cells[k].email == email && forall j :: 0 <= j < k ==> cells[j].email != email
    ensures Left(cells, n, 0, 0, email) == Without(cells[..n], {email}) <==> Removable(cells[..n], email)
  {
    hide Without;
    hide Left;
    hide StalePass;
    var view := cells[..n];
    assert view[k] == cells[k] && forall j :: 0 <= j < k ==> view[j] == cells[j];
    if OccursOnceAtMost(view, email) {
      OnceIsRemoved(cells, n, k, email);
    } else if OnlyAtTheEnd(view, email) {
      assert forall j :: k <= j < n ==> cells[j] == view[j];
      EndIsCutOff(cells, n, k, email);
      WithoutEnd(view, k, email);
      assert view[..k] == cells[..k];
    } else {
      var j, p := NeitherOnceNorLast(cells, n, k, email);
      WrongOnTheRest(cells, n, k, j, p, email);
    }
  }

  lemma NeitherOnceNorLast(cells: seq<Client>, n: nat, k: nat, email: string) returns (m: nat, p: nat)
    requires k < n <= |cells| && cells[k].email == email && forall j :: 0 <= j < k ==> cells[j].email != email
    requires !Removable(cells[..n], email)
    ensures k < m < n && cells[m].email == email && k < p < n && cells[p].email != email
  {
    var view := cells[..n];
    var i, j :| 0 <= i < j < n && view[i].email == email && view[j].email == email;
    var h, q :| 0 <= h < q < n && view[h].email == email && view[q].email != email;
    m, p := j, q;
  }

  // ---- all passes -----------------------------------------------------------------------------

  /** Every disabled email is removable where its row's turn comes. */
  ghost predicate AllRemovable(clients: seq<Client>, stats: seq<Stat>) {
    forall m :: 0 <= m < |stats| && !stats[m].enable ==>
        Removable(Without(clients, Disabled(stats[..m])), stats[m].email)
  }

  lemma DistinctIsRemovable(clients: seq<Client>, stats: seq<Stat>)
    requires forall e :: e in Disabled(stats) ==> OccursOnceAtMost(clients, e)
    ensures AllRemovable(clients, stats)
  {
    forall m | 0 <= m < |stats| && !stats[m].enable
      ensures Removable(Without(clients, Disabled(stats[..m])), stats[m].email)
    {
      assert stats[m].email in Disabled(stats);
      WithoutKeepsOnce(clients, Disabled(stats[..m]), stats[m].email);
    }
  }

  /** One pass of the outer loop, and its start. */
  lemma PassesStep(cells: seq<Client>, len: nat, stats: seq<Stat>)
    requires len <= |cells|
    ensures stats == [] ==> StalePasses(cells, len, stats) == Slice(cells, len) && Disabled(stats) == {}
    ensures stats != [] ==>
              var most, t := stats[..|stats| - 1], stats[|stats| - 1];
              var before := StalePasses(cells, len, most);
              && StalePasses(cells, len, stats)
                 == (if t.enable then before else StalePass(before.cells, before.len, 0, 0, t.email))
              && Disabled(stats) == if t.enable then Disabled(most) else Disabled(most) + {t.email}
  {
    if stats != [] {
      assert stats == stats[..|stats| - 1] + [stats[|stats| - 1]];
      DisabledSnoc(stats[..|stats| - 1], stats[|stats| - 1]);
    }
  }

  lemma {:induction false} StalePassesAreRemoval(cells: seq<Client>, len: nat, stats: seq<Stat>)
    requires len <= |cells| && AllRemovable(cells[..len], stats)
    ensures var r := StalePasses(cells, len, stats);
            r.cells[..r.len] == Without(cells[..len], Disabled(stats))
    decreases |stats|
  {
    hide StalePass;
    hide StalePasses;
    hide Removable;
    hide Without;
    hide Disabled;
    PassesStep(cells, len, stats);
    if stats == [] {
      WithoutNone(cells[..len], {});
    } else {
      var most, t := stats[..|stats| - 1], stats[|stats| - 1];
      forall m | 0 <= m < |most| ensures most[..m] == stats[..m] && most[m] == stats[m] {}
      StalePassesAreRemoval(cells, len, most);
      if !t.enable {
        var before := StalePasses(cells, len, most);
        StalePassIsRemovalIff(before.cells, before.len, t.email);
        WithoutTwice(cells[..len], Disabled(most), {t.email});
      }
    }
  }

  /** The removal loop followed by the enable pass emits exactly the filtered clients, in order,
      whenever every disabled email is removable at its turn, so when none occurs twice. */
  lemma ConfigLoopIsFilter(clients: seq<Client>, stats: seq<Stat>)
    requires AllRemovable(clients, stats)
    ensures var r := StalePasses(clients, |clients|, stats);
            ToConfigs(Enabled(r.cells[..r.len])) == ConfigClients(clients, Disabled(stats))
  {
    assert clients[..|clients|] == clients;
    StalePassesAreRemoval(clients, |clients|, stats);
    KeptIsEnabledWithout(clients, Disabled(stats));
  }

  /** When every pass but the last is right, the loop is right exactly when the last one is. */
  lemma LastPassDecides(cells: seq<Client>, len: nat, most: seq<Stat>, t: Stat)
    requires len <= |cells| && AllRemovable(cells[..len], most) && !t.enable
    ensures var r := StalePasses(cells, len, most + [t]);
            r.cells[..r.len] == Without(cells[..len], Disabled(most + [t]))
            <==> Removable(Without(cells[..len], Disabled(most)), t.email)
  {
    hide StalePass;
    hide StalePasses;
    hide Removable;
    hide Without;
    hide Disabled;
    assert (most + [t])[..|most + [t]| - 1] == most;
    PassesStep(cells, len, most + [t]);
    StalePassesAreRemoval(cells, len, most);
    var before := StalePasses(cells, len, most);
    StalePassIsRemovalIff(before.cells, before.len, t.email);
    WithoutTwice(cells[..len], Disabled(most), {t.email});
  }

  lemma PassTakesAllThree(a: Client, b: Client, a': Client)
    requires a.email == a'.email != b.email
    ensures StalePass([a, b, a'], 3, 0, 0, a.email) == Slice([a', a', a'], 0)
    ensures !Removable([a, b, a'], a.email)
  {
    var cells := [a, b, a'];
    StalePassStep(cells, 3, 0, 0, a.email);
    assert Shift(cells, 3, 0) == [b, a', a'];
    StalePassStep([b, a', a'], 3, 1, 1, a.email);
    assert Shift([b, a', a'], 2, 0) == [a', a', a'];
    StalePassStep([a', a', a'], 3, 2, 2, a.email);
    assert Shift([a', a', a'], 1, 0) == [a', a', a'];
    assert cells[0].email == cells[2].email == a.email && cells[1].email != a.email;
  }

  /** An earlier pass may go wrong unnoticed: here the first one removes, with the two clients of its own
      email, the one in between, which the second was to remove. */
  lemma PassesCanCancelOut(a: Client, b: Client, a': Client)
    requires a.email == a'.email != b.email
    ensures var cells, stats := [a, b, a'], [Stat(a.email, false), Stat(b.email, false)];
            var r := StalePasses(cells, 3, stats);
            !AllRemovable(cells, stats) && r.cells[..r.len] == [] == Without(cells, Disabled(stats))
  {
    hide Removable;
    hide StalePass;
    hide StalePasses;
    hide Without;
    var cells, first := [a, b, a'], [Stat(a.email, false)];
    var stats := [Stat(a.email, false), Stat(b.email, false)];
    assert stats[..1] == first && stats[..0] == first[..0] == [];
    PassTakesAllThree(a, b, a');
    PassesStep(cells, 3, []);
    PassesStep(cells, 3, first);
    PassesStep(cells, 3, stats);
    StalePassNoMatch([a', a', a'], 0, 0, 0, b.email);
    WithoutNone(cells, {});
    WithoutAll(cells, Disabled(stats));
    assert cells[..3] == cells;
  }

  lemma {:induction false} WithoutAll(clients: seq<Client>, emails: set<string>)
    requires forall c :: c in clients ==> c.email in emails
    ensures Without(clients, emails) == []
  {
    if clients != [] { WithoutAll(clients[1..], emails); }
  }

  /** With an email that occurs twice, and not only at the end, the loop keeps a depleted client and
      drops an active one. */
  lemma ConfigLoopDropsTheWrongClient(a: Client, b: Client, a': Client, c: Client)
    requires a.email == a'.email != b.email && a.email != c.email
    ensures StalePass([a, b, a', c], 4, 0, 0, a.email) == Slice([a', c, c, c], 2)
    ensures Without([a, b, a', c], {a.email}) == [b, c]
  {
    var s0 := [a, b, a', c];
    var s1 := [b, a', c, c];
    var s2 := [a', c, c, c];
    assert Shift(s0, 4, 0) == s1;
    assert Shift(s1, 3, 0) == s2;
    assert StalePass(s2, 4, 2, 2, a.email) == Slice(s2, 2) by {
      StalePassNoMatch(s2, 4, 2, 2, a.email);
    }
    assert StalePass(s1, 4, 1, 1, a.email) == StalePass(s2, 4, 2, 2, a.email);
    assert s0[1..] == [b, a', c] && [b, a', c][1..] == [a', c] && [a', c][1..] == [c] && [c][1..] == [];
    assert Without([c], {a.email}) == [c];
    assert Without([a', c], {a.email}) == [c];
    assert Without([b, a', c], {a.email}) == [b] + [c];
  }

  // ---- the methods ------------------------------------------------------------------------

  method RemoveIndex(cells: array<Client>, len: nat, index: nat) returns (shorter: nat)
    requires index < len <= cells.Length
    modifies cells
    ensures shorter == len - 1
    ensures cells[..] == Shift(old(cells[..]), len, index)
  {
    var i := index;
    while i < len - 1
      invariant index <= i <= len - 1
      invariant forall j :: 0 <= j < index ==> cells[j] == old(cells[j])
      invariant forall j :: index <= j < i ==> cells[j] == old(cells[j + 1])
      invariant forall j :: i <= j < cells.Length ==> cells[j] == old(cells[j])
    {
      cells[i] := cells[i + 1];
      i := i + 1;
    }
    return len - 1;
  }

  lemma StalePassStep(cells: seq<Client>, n: nat, i: nat, dec: nat, email: string)
    requires dec <= i < n <= |cells|
    ensures StalePass(cells, n, i, dec, email) ==
            if cells[i].email == email
            then StalePass(Shift(cells, n - dec, i - dec), n, i + 1, dec + 1, email)
            else StalePass(cells, n, i + 1, dec, email)
  {
  }

  /** The inner loop for one disabled traffic row: the range is fixed to the old length `n`, the
      cells are read as the removals leave them. */
  method RemoveDepleted(cells: array<Client>, n: nat, email: string) returns (len: nat)
    requires n <= cells.Length
    modifies cells
    ensures Slice(cells[..], len) == StalePass(old(cells[..]), n, 0, 0, email)
  {
    hide StalePass;
    hide Shift;
    len := n;
    var decrease := 0;
    for i := 0 to n
      invariant 0 <= decrease <= i && len == n - decrease
      invariant StalePass(cells[..], n, i, decrease, email) == StalePass(old(cells[..]), n, 0, 0, email)
    {
      StalePassStep(cells[..], n, i, decrease, email);
      if cells[i].email == email {
        len := RemoveIndex(cells, len, i - decrease);
        decrease := decrease + 1;
      }
    }
    StalePassEnds(cells[..], n, decrease, email);
  }

  lemma StalePassEnds(cells: seq<Client>, n: nat, dec: nat, email: string)
    requires dec <= n <= |cells|
    ensures StalePass(cells, n, n, dec, email) == Slice(cells, n - dec)
  {
  }

  /** The pass that drops disabled clients and strips the others down to their config keys. */
  method EmitEnabled(active: seq<Client>) returns (config: seq<ConfigClient>)
    ensures config == ToConfigs(Enabled(active))
  {
    config := [];
    for i := 0 to |active|
      invariant config == ToConfigs(Enabled(active[..i]))
    {
      assert active[..i + 1] == active[..i] + [active[i]];
      EnabledConcat(active[..i], [active[i]]);
      if active[i].enable {
        config := config + [ToConfig(active[i])];
      }
    }
    assert active[..|active|] == active;
  }

  /** The client filter of one inbound. `cells` is the array behind the decoded clients slice. */
  method FilterClients(cells: array<Client>, stats: seq<Stat>) returns (config: seq<ConfigClient>)
    modifies cells
    ensures var r := StalePasses(old(cells[..]), cells.Length, stats);
            cells[..] == r.cells && config == ToConfigs(Enabled(r.cells[..r.len]))
    ensures AllRemovable(old(cells[..]), stats) ==>
              config == ConfigClients(old(cells[..]), Disabled(stats))
  {
    ghost var start := cells[..];
    var len: nat := cells.Length;
    for s := 0 to |stats|
      invariant len <= cells.Length
      invariant Slice(cells[..], len) == StalePasses(start, |start|, stats[..s])
    {
      assert stats[..s + 1][..s] == stats[..s];
      if !stats[s].enable {
        len := RemoveDepleted(cells, len, stats[s].email);
      }
    }
    assert stats[..|stats|] == stats;
    config := EmitEnabled(cells[..len]);
    if AllRemovable(start, stats) {
      ConfigLoopIsFilter(start, stats);
    }
  }

  lemma {:induction false} EnabledConcat(a: seq<Client>, b: seq<Client>)
    ensures Enabled(a + b) == Enabled(a) + Enabled(b)
  {
    if a == [] {
      assert a + b == b;
    } else {
      assert (a + b)[1..] == a[1..] + b;
      EnabledConcat(a[1..], b);
    }
  }
}
