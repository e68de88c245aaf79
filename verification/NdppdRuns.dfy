/**
 Runs of the two managers on one file. A reachable file is laid out as the user's text followed by
 the sections, with runs of newlines between them; each operation is a map update on the sections
 and leaves the user's text alone, up to surrounding space.
 */
module NdppdRuns {
  import opened NdppdText
  import opened NdppdProofs

  datatype Item = Item(gap: nat, m: Manager, body: string)

  function Tail(items: seq<Item>, last: nat): string {
    if items == [] then Newlines(last)
    else Newlines(items[0].gap) + Block(items[0].m, items[0].body) + Tail(items[1..], last)
  }

  ghost predicate CleanUser(user: string) {
    forall m: Manager :: !Occurs(Begin(m), user)
  }

  ghost predicate CleanItems(items: seq<Item>) {
    && (forall i :: 0 <= i < |items| ==> CleanBody(items[i].body))
    && forall i, j :: 0 <= i < j < |items| ==> items[i].m != items[j].m
  }

  predicate Has(items: seq<Item>, m: Manager) {
    exists i :: 0 <= i < |items| && items[i].m == m
  }

  function Blocks(items: seq<Item>): map<Manager, string> {
    if items == [] then map[] else Blocks(items[1..])[items[0].m := items[0].body]
  }

  lemma {:induction false} BlocksAt(items: seq<Item>, m: Manager)
    requires CleanItems(items)
    ensures m in Blocks(items) <==> Has(items, m)
    ensures forall i :: 0 <= i < |items| && items[i].m == m ==> Blocks(items)[m] == items[i].body
  {
    if items != [] {
      BlocksAt(items[1..], m);
      if Has(items, m) {
        var i :| 0 <= i < |items| && items[i].m == m;
        assert i == 0 || items[1..][i - 1].m == m;
      }
      if Has(items[1..], m) {
        var i :| 0 <= i < |items| - 1 && items[1..][i].m == m;
        assert items[i + 1].m == m;
      }
    }
  }

  // ---- no marker where there should be none -------------------------------------------------------

  lemma BlockHasNoBegin(m: Manager, n: Manager, body: string)
    requires m != n && CleanBody(body)
    ensures !Occurs(Begin(m), Block(n, body))
  {
    Markers(m, n);
    if Occurs(Begin(m), Begin(n) + body + End(n)) {
      OccursInJoin(Begin(m), Begin(n) + body, End(n));
      OccursInJoin(Begin(m), Begin(n), body);
      assert false;
    }
  }

  lemma NewlinesHaveNoBegin(m: Manager, n: nat)
    ensures !Occurs(Begin(m), Newlines(n))
  {
    NewlineHasNoBegin(m);
    NoBeginAppended(m, "", n);
    assert "" + Newlines(n) == Newlines(n);
  }

  /** A tail starts with a newline or a marker, or is empty. */
  lemma TailBreaks(b: string, items: seq<Item>, last: nat)
    requires Mark(b)
    ensures Breaks(b, Tail(items, last))
  {
    if items != [] && items[0].gap == 0 {
      MarkersAreMarks(items[0].m);
      assert Tail(items, last)[0] == '#';
    }
  }

  lemma {:induction false} TailHasNoBegin(items: seq<Item>, last: nat, m: Manager)
    requires CleanItems(items) && !Has(items, m)
    ensures !Occurs(Begin(m), Tail(items, last))
  {
    NewlinesHaveNoBegin(m, last);
    if items != [] {
      var it := items[0];
      assert it.m != m;
      assert forall i :: 0 <= i < |items| - 1 ==> items[1..][i] == items[i + 1];
      TailHasNoBegin(items[1..], last, m);
      NewlinesHaveNoBegin(m, it.gap);
      BlockHasNoBegin(m, it.m, it.body);
      MarkersAreMarks(m);
      Markers(m, it.m);
      if Occurs(Begin(m), Newlines(it.gap) + Block(it.m, it.body) + Tail(items[1..], last)) {
        TailBreaks(Begin(m), items[1..], last);
        OccursInJoin(Begin(m), Newlines(it.gap) + Block(it.m, it.body), Tail(items[1..], last));
        OccursInJoin(Begin(m), Newlines(it.gap), Block(it.m, it.body));
        assert false;
      }
    }
  }

  lemma LayoutHasNoBegin(user: string, items: seq<Item>, last: nat, m: Manager)
    requires CleanUser(user) && CleanItems(items) && !Has(items, m)
    ensures !Occurs(Begin(m), user + Tail(items, last))
  {
    TailHasNoBegin(items, last, m);
    MarkersAreMarks(m);
    TailBreaks(Begin(m), items, last);
    if Occurs(Begin(m), user + Tail(items, last)) {
      OccursInJoin(Begin(m), user, Tail(items, last));
      assert false;
    }
  }

  // ---- taking a layout apart ----------------------------------------------------------------------

  lemma {:induction false} TailAt(items: seq<Item>, last: nat, k: nat)
    requires k < |items|
    ensures Tail(items, last)
            == Tail(items[..k], items[k].gap) + Block(items[k].m, items[k].body) + Tail(items[k + 1..], last)
  {
    hide Begin;
    hide End;
    if k > 0 {
      TailAt(items[1..], last, k - 1);
      assert items[1..][..k - 1] == items[..k][1..] && items[1..][k..] == items[k + 1..];
      assert items[..k][0] == items[0];
    }
  }

  /** Where a section of `m` stands, its replacement by any text is local. */
  lemma ReplaceInLayout(user: string, items: seq<Item>, last: nat, k: nat, s: string)
    requires CleanUser(user) && CleanItems(items) && k < |items|
    ensures var m := items[k].m;
            var t := user + Tail(items, last);
            && Matched(t, m)
                 == Section(user + Tail(items[..k], items[k].gap), items[k].body, Tail(items[k + 1..], last))
            && !Occurs(Begin(m), Tail(items[k + 1..], last))
            && Rewrite(t, m, s) == user + Tail(items[..k], items[k].gap) + s + Tail(items[k + 1..], last)
  {
    hide Begin;
    hide End;
    var m := items[k].m;
    var x, y := user + Tail(items[..k], items[k].gap), Tail(items[k + 1..], last);
    TailAt(items, last, k);
    assert user + Tail(items, last) == x + Block(m, items[k].body) + y;
    LayoutHasNoBegin(user, items[..k], items[k].gap, m);
    TailHasNoBegin(items[k + 1..], last, m);
    MatchBlock(x, m, items[k].body, y);
    ReplaceBlock(x, m, items[k].body, y, s);
    ReplaceNothing(y, m, s);
  }

  // ---- Apply --------------------------------------------------------------------------------------

  lemma {:induction false} ItemReplaced(items: seq<Item>, last: nat, k: nat, body: string)
    requires k < |items|
    ensures Tail(items[k := items[k].(body := body)], last)
            == Tail(items[..k], items[k].gap) + Block(items[k].m, body) + Tail(items[k + 1..], last)
  {
    hide Begin;
    hide End;
    var after := items[k := items[k].(body := body)];
    TailAt(after, last, k);
    assert after[..k] == items[..k] && after[k + 1..] == items[k + 1..];
  }

  lemma {:induction false} BlocksReplaced(items: seq<Item>, k: nat, body: string)
    requires CleanItems(items) && k < |items|
    ensures Blocks(items[k := items[k].(body := body)]) == Blocks(items)[items[k].m := body]
  {
    if k == 0 {
      assert items[0 := items[0].(body := body)][1..] == items[1..];
    } else {
      assert items[k := items[k].(body := body)][1..] == items[1..][k - 1 := items[k].(body := body)];
      BlocksReplaced(items[1..], k - 1, body);
    }
  }

  lemma {:induction false} TailAppend(items: seq<Item>, last: nat, it: Item, n: nat)
    requires it.gap == last
    ensures Tail(items + [it], n) == Tail(items, last) + Block(it.m, it.body) + Newlines(n)
  {
    TailAt(items + [it], n, |items|);
    assert (items + [it])[..|items|] == items && (items + [it])[|items| + 1..] == [];
  }

  lemma {:induction false} BlocksAppend(items: seq<Item>, it: Item)
    requires !Has(items, it.m)
    ensures Blocks(items + [it]) == Blocks(items)[it.m := it.body]
  {
    if items == [] {
      assert ([] + [it])[1..] == [];
    } else {
      assert (items + [it])[1..] == items[1..] + [it] && (items + [it])[0] == items[0];
      assert items[0].m != it.m;
      assert forall i :: 0 <= i < |items| - 1 ==> items[1..][i] == items[i + 1];
      BlocksAppend(items[1..], it);
    }
  }

  lemma EndsInDash(m: Manager, body: string)
    ensures var b := Block(m, body); b != "" && b[|b| - 1] == '-'
  {
  }

  /** A section ends in a character that is no newline and no space. */
  lemma EndsWithBlock(x: string, m: Manager, body: string, n: nat)
    ensures TrimNewlines(x + Block(m, body) + Newlines(n)) == x + Block(m, body)
    ensures TrimRight(x + Block(m, body) + Newlines(n)) == x + Block(m, body)
    decreases n
  {
    hide Block;
    EndsInDash(m, body);
    var t := x + Block(m, body);
    assert t[|t| - 1] == '-';
    TrimRightJoin(t, n);
    if n > 0 {
      assert (t + Newlines(n))[..|t| + n - 1] == t + Newlines(n - 1);
      EndsWithBlock(x, m, body, n - 1);
    } else {
      assert t + Newlines(0) == t;
    }
  }

  lemma {:induction false} NewlinesTrimmed(t: string, n: nat)
    ensures TrimNewlines(t + Newlines(n)) == TrimNewlines(t)
  {
    if n > 0 {
      assert (t + Newlines(n))[..|t| + n - 1] == t + Newlines(n - 1);
      NewlinesTrimmed(t, n - 1);
    } else {
      assert t + Newlines(0) == t;
    }
  }

  /** A layout with a section ends in a section and some newlines. */
  lemma LayoutEnd(user: string, items: seq<Item>, last: nat) returns (x: string, it: Item)
    requires items != []
    ensures user + Tail(items, last) == x + Block(it.m, it.body) + Newlines(last)
    ensures user + Tail(items, 0) == x + Block(it.m, it.body)
  {
    hide Begin;
    hide End;
    var k := |items| - 1;
    it := items[k];
    x := user + Tail(items[..k], it.gap);
    assert items[k + 1..] == [];
    TailAt(items, last, k);
    TailAt(items, 0, k);
    var b, n := Block(it.m, it.body), Newlines(last);
    assert user + (Tail(items[..k], it.gap) + b + n) == x + b + n;
    assert user + (Tail(items[..k], it.gap) + b + Newlines(0)) == x + b;
  }

  /** Newlines at the end of a layout go; newlines at the end of the user's text only when there is
      no section. */
  lemma LayoutTrimmed(user: string, items: seq<Item>, last: nat)
    ensures TrimNewlines(user + Tail(items, last)) == if items == [] then TrimNewlines(user) else user + Tail(items, 0)
  {
    if items == [] {
      NewlinesTrimmed(user, last);
    } else {
      var x, it := LayoutEnd(user, items, last);
      EndsWithBlock(x, it.m, it.body, last);
    }
  }

  lemma CleanTrimmed(user: string)
    requires CleanUser(user)
    ensures CleanUser(TrimNewlines(user)) && CleanUser(TrimLeft(user)) && CleanUser(TrimSpace(user))
  {
    hide Begin;
    hide End;
    TrimLeftParts(user);
    TrimRightParts(TrimLeft(user));
    var l, u := TrimLeft(user), TrimSpace(user);
    var lead, trail := user[..|user| - |l|], l[|u|..];
    assert user == lead + l + "" && l == "" + u + trail;
    forall m: Manager ensures !Occurs(Begin(m), TrimNewlines(user)) && !Occurs(Begin(m), l) && !Occurs(Begin(m), u) {
      NoBeginTrimmed(m, user);
      if Occurs(Begin(m), l) {
        OccursInPart(Begin(m), lead, l, "");
        assert false;
      }
      if Occurs(Begin(m), u) {
        OccursInPart(Begin(m), "", u, trail);
        assert false;
      }
    }
  }

  // ---- Stop ---------------------------------------------------------------------------------------

  function Widen(items: seq<Item>, n: nat): seq<Item> {
    if items == [] then [] else items[0 := items[0].(gap := items[0].gap + n)]
  }

  lemma NewlinesJoin(a: nat, b: nat)
    ensures Newlines(a) + Newlines(b) == Newlines(a + b)
  {
  }

  lemma Assoc(a: string, b: string, c: string)
    ensures a + (b + c) == a + b + c
  {
  }

  /** What follows the first gap. */
  function AfterGap(items: seq<Item>, last: nat): string
    requires items != []
  {
    Block(items[0].m, items[0].body) + Tail(items[1..], last)
  }

  lemma TailByGap(items: seq<Item>, last: nat)
    requires items != []
    ensures Tail(items, last) == Newlines(items[0].gap) + AfterGap(items, last)
    ensures AfterGap(items, last) != "" && AfterGap(items, last)[0] == '#'
  {
    MarkersAreMarks(items[0].m);
    Assoc(Newlines(items[0].gap), Block(items[0].m, items[0].body), Tail(items[1..], last));
  }

  /** Newlines before a tail widen its first gap. */
  lemma WidenTail(items: seq<Item>, last: nat, n: nat)
    ensures Newlines(n) + Tail(items, last) == Tail(Widen(items, n), if items == [] then n + last else last)
  {
    if items == [] {
      NewlinesJoin(n, last);
    } else {
      NewlinesJoin(n, items[0].gap);
      TailByGap(items, last);
      TailByGap(Widen(items, n), last);
      assert Widen(items, n)[1..] == items[1..];
      Assoc(Newlines(n), Newlines(items[0].gap), AfterGap(items, last));
    }
  }

  lemma {:induction false} TailJoin(front: seq<Item>, gap: nat, items: seq<Item>, last: nat)
    ensures Tail(front, gap) + Tail(items, last)
              == Tail(front + Widen(items, gap), if items == [] then gap + last else last)
    decreases front
  {
    hide Begin;
    hide End;
    if front == [] {
      WidenTail(items, last, gap);
      assert [] + Widen(items, gap) == Widen(items, gap);
    } else {
      var all := front + Widen(items, gap);
      assert all[0] == front[0] && all[1..] == front[1..] + Widen(items, gap);
      TailJoin(front[1..], gap, items, last);
    }
  }

  function Without(items: seq<Item>, k: nat): seq<Item>
    requires k < |items|
  {
    items[..k] + Widen(items[k + 1..], items[k].gap)
  }

  lemma WithoutIsClean(items: seq<Item>, k: nat)
    requires CleanItems(items) && k < |items|
    ensures CleanItems(Without(items, k))
  {
    var w := Without(items, k);
    assert |w| == |items| - 1;
    forall i | 0 <= i < |w|
      ensures w[i].m == items[if i < k then i else i + 1].m && w[i].body == items[if i < k then i else i + 1].body
    {
    }
  }

  lemma {:induction false} BlocksWithout(items: seq<Item>, k: nat)
    requires CleanItems(items) && k < |items|
    ensures Blocks(Without(items, k)) == Blocks(items) - {items[k].m}
  {
    hide CleanBody;
    var rest := items[1..];
    if k == 0 {
      BlocksAt(rest, items[0].m);
      BlocksWidened(rest, items[0].gap);
      assert Without(items, 0) == Widen(rest, items[0].gap);
    } else {
      assert rest[..k - 1] == items[..k][1..] && rest[k..] == items[k + 1..];
      assert Without(items, k)[1..] == Without(rest, k - 1);
      BlocksWithout(rest, k - 1);
    }
  }

  lemma NoBlocks(items: seq<Item>)
    ensures Blocks(items) == map[] <==> items == []
  {
    if items != [] { assert items[0].m in Blocks(items); }
  }

  lemma BlocksWidened(items: seq<Item>, n: nat)
    ensures Blocks(Widen(items, n)) == Blocks(items)
  {
    if items != [] { assert Widen(items, n)[1..] == items[1..]; }
  }

  lemma EmptyBetween(a: string, b: string, c: string)
    ensures a + b + "" + c == a + (b + c)
  {
  }

  lemma CutAt(user: string, items: seq<Item>, last: nat, k: nat, m: Manager) returns (last': nat)
    requires CleanUser(user) && CleanItems(items) && k < |items| && items[k].m == m
    ensures Rewrite(user + Tail(items, last), m, "") == user + Tail(Without(items, k), last')
  {
    hide Begin;
    hide End;
    last' := if items[k + 1..] == [] then items[k].gap + last else last;
    var x, y := Tail(items[..k], items[k].gap), Tail(items[k + 1..], last);
    assert Rewrite(user + Tail(items, last), m, "") == user + x + "" + y by {
      ReplaceInLayout(user, items, last, k, "");
    }
    assert x + y == Tail(Without(items, k), last') by {
      TailJoin(items[..k], items[k].gap, items[k + 1..], last);
    }
    EmptyBetween(user, x, y);
  }

  /** Cutting the section of `m` out of a layout leaves a layout. */
  lemma CutLayout(user: string, items: seq<Item>, last: nat, m: Manager) returns (items': seq<Item>, last': nat)
    requires CleanUser(user) && CleanItems(items)
    ensures Rewrite(user + Tail(items, last), m, "") == user + Tail(items', last')
    ensures CleanItems(items') && Blocks(items') == Blocks(items) - {m}
  {
    hide Begin;
    hide End;
    if Has(items, m) {
      var k :| 0 <= k < |items| && items[k].m == m;
      last' := CutAt(user, items, last, k, m);
      WithoutIsClean(items, k);
      BlocksWithout(items, k);
      items' := Without(items, k);
    } else {
      BlocksAt(items, m);
      LayoutHasNoBegin(user, items, last, m);
      ReplaceNothing(user + Tail(items, last), m, "");
      items', last' := items, last;
    }
  }

  lemma TrimLeftTwice(t: string)
    ensures TrimLeft(TrimLeft(t)) == TrimLeft(t)
  {
    TrimLeftParts(t);
  }

  lemma TrimLeftTail(items: seq<Item>, last: nat) returns (items': seq<Item>)
    requires items != [] && CleanItems(items)
    ensures TrimLeft(Tail(items, last)) == Tail(items', last)
    ensures items' != [] && CleanItems(items') && Blocks(items') == Blocks(items)
  {
    hide Block;
    items' := items[0 := items[0].(gap := 0)];
    assert items'[1..] == items[1..];
    TailByGap(items, last);
    TailByGap(items', last);
    NewlinesTrimLeft(items[0].gap, AfterGap(items, last));
    assert Newlines(0) + AfterGap(items', last) == AfterGap(items', last);
  }

  /** Space at the start of a layout goes from the user's text or, when that is blank, from the gap
      before the first section. */
  lemma TrimLeftLayout(user: string, items: seq<Item>, last: nat) returns (user': string, items': seq<Item>)
    requires items != [] && CleanUser(user) && CleanItems(items)
    ensures TrimLeft(user + Tail(items, last)) == user' + Tail(items', last)
    ensures TrimSpace(user') == TrimSpace(user) && CleanUser(user')
    ensures items' != [] && CleanItems(items') && Blocks(items') == Blocks(items)
  {
    hide Begin;
    hide End;
    CleanTrimmed(user);
    TrimLeftTwice(user);
    user' := TrimLeft(user);
    TrimLeftJoin(user, Tail(items, last));
    if user' == "" {
      items' := TrimLeftTail(items, last);
      assert "" + Tail(items', last) == Tail(items', last);
    } else {
      items' := items;
    }
  }

  lemma TrimLayout(user: string, items: seq<Item>, last: nat) returns (user': string, items': seq<Item>)
    requires CleanUser(user) && CleanItems(items)
    ensures TrimSpace(user + Tail(items, last)) + "\n" == user' + Tail(items', 1)
    ensures TrimSpace(user') == TrimSpace(user) && CleanUser(user')
    ensures CleanItems(items') && Blocks(items') == Blocks(items)
    ensures if items == [] then items' == [] && TrimSpace(user + Tail(items, last)) == TrimSpace(user)
            else var r := TrimSpace(user + Tail(items, last)); r != "" && r[|r| - 1] == '-'
  {
    hide Begin;
    hide End;
    assert Newlines(1) == "\n";
    if items == [] {
      TrimSpaceIgnoresNewlines(user, last);
      TrimSpaceTwice(user);
      CleanTrimmed(user);
      user', items' := TrimSpace(user), [];
    } else {
      user', items' := TrimLeftLayout(user, items, last);
      var x, it := LayoutEnd(user', items', last);
      var x1, it1 := LayoutEnd(user', items', 1);
      EndsWithBlock(x, it.m, it.body, last);
      EndsInDash(it.m, it.body);
      TailOneMore(user', items');
    }
  }

  lemma {:induction false} TailOneMore(user: string, items: seq<Item>)
    ensures user + Tail(items, 0) + "\n" == user + Tail(items, 1)
    decreases items
  {
    if items == [] {
      assert Newlines(0) + "\n" == Newlines(1);
    } else {
      TailOneMore("", items[1..]);
      assert "" + Tail(items[1..], 0) + "\n" == Tail(items[1..], 0) + "\n";
      assert "" + Tail(items[1..], 1) == Tail(items[1..], 1);
    }
  }

  // ---- files --------------------------------------------------------------------------------------

  /** A lone header is what the first Apply writes; a file with nothing else is as good as none. */
  function Settle(t: string): string {
    if TrimSpace(t) == HEADER then "" else TrimSpace(t)
  }

  ghost predicate IsLayout(t: string, user: string, items: seq<Item>, last: nat) {
    t == user + Tail(items, last) && CleanUser(user) && CleanItems(items)
  }

  /** The file holds the user's text `core` and the sections `blocks`. */
  ghost predicate Holds(f: File, core: string, blocks: map<Manager, string>) {
    match f
    case Absent => core == "" && blocks == map[]
    case Text(t) =>
        exists user, items, last :: IsLayout(t, user, items, last) && Settle(user) == core && Blocks(items) == blocks
  }

  lemma HoldsText(user: string, items: seq<Item>, last: nat)
    requires CleanUser(user) && CleanItems(items)
    ensures Holds(Text(user + Tail(items, last)), Settle(user), Blocks(items))
  {
    assert IsLayout(user + Tail(items, last), user, items, last);
  }

  lemma StopHolds(f: File, core: string, blocks: map<Manager, string>, m: Manager)
    requires Holds(f, core, blocks)
    ensures Holds(Stop(f, m), core, blocks - {m})
  {
    hide Begin;
    hide End;
    if f.Text? {
      var user, items: seq<Item>, last :| IsLayout(f.t, user, items, last) && Settle(user) == core
          && Blocks(items) == blocks;
      var items', last' := CutLayout(user, items, last, m);
      var user'', items'' := TrimLayout(user, items', last');
      HoldsText(user'', items'', 1);
    }
  }

  lemma ApplyFirst(m: Manager, body: string)
    requires CleanBody(body)
    ensures Holds(Text(HEADER + "\n\n" + Block(m, body) + "\n"), "", map[m := body])
  {
    hide Begin;
    hide End;
    var it := Item(2, m, body);
    AppendToLayout(HEADER, [], it);
    assert [] + [it] == [it] && HEADER + Tail([], 0) == HEADER;
    HeaderIsClean();
    assert Blocks([it]) == map[][m := body];
    HoldsText(HEADER, [it], 1);
  }

  lemma HeaderIsClean()
    ensures CleanUser(HEADER) && CleanUser("") && Settle(HEADER) == "" && Settle("") == ""
  {
    forall m: Manager ensures !Occurs(Begin(m), HEADER) && !Occurs(Begin(m), "") {
      NewlineHasNoBegin(m);
    }
    assert TrimSpace(HEADER) == HEADER;
  }

  lemma ApplyAppends(user: string, items: seq<Item>, last: nat, m: Manager, body: string)
    requires CleanUser(user) && CleanItems(items) && CleanBody(body) && !Has(items, m)
    ensures Holds(Text(TrimNewlines(user + Tail(items, last)) + "\n\n" + Block(m, body) + "\n"),
                  Settle(user), Blocks(items)[m := body])
  {
    hide Begin;
    hide End;
    var it := Item(2, m, body);
    var user' := if items == [] then TrimNewlines(user) else user;
    LayoutTrimmed(user, items, last);
    CleanTrimmed(user);
    TrimmedNewlinesAreSpace(user);
    AppendToLayout(user', items, it);
    BlocksAppend(items, it);
    forall i, j | 0 <= i < j < |items + [it]| ensures (items + [it])[i].m != (items + [it])[j].m {}
    HoldsText(user', items + [it], 1);
    if items == [] { assert user' + Tail([], 0) == user'; }
  }

  lemma AppendToLayout(user: string, items: seq<Item>, it: Item)
    requires it.gap == 2
    ensures user + Tail(items + [it], 1) == user + Tail(items, 0) + "\n\n" + Block(it.m, it.body) + "\n"
  {
    hide Begin;
    hide End;
    TailAppend(items, 2, it, 1);
    TailOneMore(user, items);
    TailTwoMore(items);
    assert Newlines(1) == "\n";
    var b := Block(it.m, it.body);
    assert user + ((Tail(items, 0) + "\n\n") + b + "\n") == user + Tail(items, 0) + "\n\n" + b + "\n";
  }

  lemma {:induction false} TailTwoMore(items: seq<Item>)
    ensures Tail(items, 2) == Tail(items, 0) + "\n\n"
  {
    if items == [] {
      assert Newlines(0) + "\n\n" == Newlines(2);
    } else {
      TailTwoMore(items[1..]);
    }
  }

  lemma ReplacedAt(user: string, items: seq<Item>, last: nat, k: nat, m: Manager, body: string)
    requires CleanUser(user) && CleanItems(items) && k < |items| && items[k].m == m
    ensures Rewrite(user + Tail(items, last), m, Block(m, body))
                              == user + Tail(items[k := items[k].(body := body)], last)
  {
    hide Begin;
    hide End;
    var x, y := Tail(items[..k], items[k].gap), Tail(items[k + 1..], last);
    var s := Block(m, body);
    assert Rewrite(user + Tail(items, last), m, s) == user + x + s + y by {
      ReplaceInLayout(user, items, last, k, s);
    }
    assert Tail(items[k := items[k].(body := body)], last) == x + s + y by {
      ItemReplaced(items, last, k, body);
    }
    Assoc(user, x, s);
    Assoc(user, x + s, y);
  }

  lemma ApplyReplaces(user: string, items: seq<Item>, last: nat, k: nat, m: Manager, body: string)
    requires CleanUser(user) && CleanItems(items) && CleanBody(body) && k < |items| && items[k].m == m
    ensures Holds(Text(Rewrite(user + Tail(items, last), m, Block(m, body))), Settle(user), Blocks(items)[m := body])
  {
    hide Begin;
    hide End;
    ReplacedAt(user, items, last, k, m, body);
    BlocksReplaced(items, k, body);
    HoldsText(user, items[k := items[k].(body := body)], last);
  }

  lemma ApplyHolds(f: File, core: string, blocks: map<Manager, string>, m: Manager, body: string)
    requires Holds(f, core, blocks) && CleanBody(body)
    ensures Holds(Apply(f, m, body), core, blocks[m := body])
  {
    hide Tail;
    hide Blocks;
    hide Settle;
    hide Begin;
    hide End;
    if f == Absent {
      ApplyFirst(m, body);
    } else {
      var user, items: seq<Item>, last :| IsLayout(f.t, user, items, last) && Settle(user) == core
          && Blocks(items) == blocks;
      if f.t == "" {
        EmptyLayout(user, items, last);
        ApplyFirst(m, body);
      } else if Has(items, m) {
        var k :| 0 <= k < |items| && items[k].m == m;
        ReplaceInLayout(user, items, last, k, "");
        ApplyReplaces(user, items, last, k, m, body);
      } else {
        LayoutHasNoBegin(user, items, last, m);
        ReplaceNothing(f.t, m, "");
        ApplyAppends(user, items, last, m, body);
      }
    }
  }

  lemma EmptyLayout(user: string, items: seq<Item>, last: nat)
    requires user + Tail(items, last) == ""
    ensures Settle(user) == "" && Blocks(items) == map[]
  {
    assert |user + Tail(items, last)| == |user| + |Tail(items, last)| == 0;
    assert user == "";
    TailIsEmpty(items, last);
  }

  lemma TailIsEmpty(items: seq<Item>, last: nat)
    ensures items != [] ==> Tail(items, last) != ""
  {
    if items != [] {
      MarkersAreMarks(items[0].m);
      assert |Tail(items, last)| >= |Block(items[0].m, items[0].body)| > 0;
    }
  }

  // ---- what the layout means ----------------------------------------------------------------------

  /** The section of `m` in a file: its parameters, and that no other follows it. */
  ghost predicate HasSection(f: File, m: Manager, body: string) {
    f.Text? && var r := Matched(f.t, m);
               r.Section? && r.body == body && !Occurs(Begin(m), r.before) && !Occurs(Begin(m), r.after)
  }

  ghost predicate HasNoSection(f: File, m: Manager) {
    f.Text? ==> !Occurs(Begin(m), f.t)
  }

  /** What both services would leave behind. */
  function UserText(f: File): string {
    if f.Absent? then "" else
      Settle(Rewrite(Rewrite(f.t, Awg, ""), Wg, ""))
  }

  lemma HoldsMeans(f: File, core: string, blocks: map<Manager, string>, m: Manager)
    requires Holds(f, core, blocks)
    ensures UserText(f) == core
    ensures if m in blocks then HasSection(f, m, blocks[m]) else HasNoSection(f, m)
  {
    hide Begin;
    hide End;
    if f.Text? {
      var user, items: seq<Item>, last :| IsLayout(f.t, user, items, last) && Settle(user) == core
          && Blocks(items) == blocks;
      UserTextOfLayout(user, items, last);
      BlocksAt(items, m);
      if Has(items, m) {
        var k :| 0 <= k < |items| && items[k].m == m;
        ReplaceInLayout(user, items, last, k, "");
        BeforeHasNoBegin(f.t, m);
      } else {
        LayoutHasNoBegin(user, items, last, m);
      }
    }
  }

  lemma NobodyLeft(blocks: map<Manager, string>)
    ensures blocks - {Awg} - {Wg} == map[]
  {
    forall m: Manager ensures m !in blocks - {Awg} - {Wg} {
      assert m == Awg || m == Wg;
    }
  }

  lemma CutBoth(user: string, items: seq<Item>, last: nat) returns (n: nat)
    requires CleanUser(user) && CleanItems(items)
    ensures Rewrite(Rewrite(user + Tail(items, last), Awg, ""), Wg, "") == user + Newlines(n)
  {
    hide Begin;
    hide End;
    hide Rewrite;
    var items1, last1 := CutLayout(user, items, last, Awg);
    var items2, last2 := CutLayout(user, items1, last1, Wg);
    NobodyLeft(Blocks(items));
    NoBlocks(items2);
    n := last2;
  }

  lemma UserTextOfLayout(user: string, items: seq<Item>, last: nat)
    requires CleanUser(user) && CleanItems(items)
    ensures UserText(Text(user + Tail(items, last))) == Settle(user)
  {
    hide Rewrite;
    hide TrimSpace;
    var n := CutBoth(user, items, last);
    TrimSpaceIgnoresNewlines(user, n);
  }

  // ---- runs ---------------------------------------------------------------------------------------

  datatype Op = DoApply(m: Manager, body: string) | DoStop(m: Manager)

  function RunFile(f: File, ops: seq<Op>): File {
    if ops == [] then f
    else
      var g := RunFile(f, ops[..|ops| - 1]);
      match ops[|ops| - 1]
      case DoApply(m, body) => Apply(g, m, body)
      case DoStop(m) => Stop(g, m)
  }

  /** Which sections should be there after a run: what each manager did last. */
  function Sections(ops: seq<Op>): map<Manager, string> {
    if ops == [] then map[]
    else
      match ops[|ops| - 1]
      case DoApply(m, body) => Sections(ops[..|ops| - 1])[m := body]
      case DoStop(m) => Sections(ops[..|ops| - 1]) - {m}
  }

  ghost predicate CleanOps(ops: seq<Op>) {
    forall i :: 0 <= i < |ops| && ops[i].DoApply? ==> CleanBody(ops[i].body)
  }

  ghost predicate CleanFile(f: File) {
    f.Text? ==> CleanUser(f.t)
  }

  lemma StartHolds(f: File)
    requires CleanFile(f)
    ensures Holds(f, UserText(f), map[])
  {
    if f.Text? {
      assert f.t + Tail([], 0) == f.t;
      HoldsText(f.t, [], 0);
      UserTextOfLayout(f.t, [], 0);
    }
  }

  lemma {:induction false} RunHolds(f: File, ops: seq<Op>)
    requires CleanFile(f) && CleanOps(ops)
    ensures Holds(RunFile(f, ops), UserText(f), Sections(ops))
  {
    if ops == [] {
      StartHolds(f);
    } else {
      var front := ops[..|ops| - 1];
      RunHolds(f, front);
      match ops[|ops| - 1]
      case DoApply(m, body) => ApplyHolds(RunFile(f, front), UserText(f), Sections(front), m, body);
      case DoStop(m) => StopHolds(RunFile(f, front), UserText(f), Sections(front), m);
    }
  }

  /** Starting from no file or any text without begin markers, after any run of applies and stops by
      both managers: each manager's section is there exactly when its last operation was an Apply,
      once, with the parameters of that Apply, whatever the other manager did; and the user's text is
      what it was. */
  lemma RunKeepsFile(f: File, ops: seq<Op>, m: Manager)
    requires CleanFile(f) && CleanOps(ops)
    ensures var g := RunFile(f, ops);
            && UserText(g) == UserText(f)
            && (if m in Sections(ops) then HasSection(g, m, Sections(ops)[m]) else HasNoSection(g, m))
  {
    RunHolds(f, ops);
    HoldsMeans(RunFile(f, ops), UserText(f), Sections(ops), m);
  }

  /** When both have stopped, at least one of them as the last step, the file is the settled one. */
  lemma AllStopped(f: File, ops: seq<Op>, m: Manager)
    requires CleanFile(f) && CleanOps(ops) && Sections(ops + [DoStop(m)]) == map[]
    ensures RunFile(f, ops + [DoStop(m)]) == if UserText(f) == "" then Absent else Text(UserText(f) + "\n")
  {
    assert (ops + [DoStop(m)])[..|ops|] == ops;
    RunHolds(f, ops);
    StopLast(RunFile(f, ops), UserText(f), Sections(ops), m);
  }

  lemma StopLast(f: File, core: string, blocks: map<Manager, string>, m: Manager)
    requires Holds(f, core, blocks) && blocks - {m} == map[]
    ensures Stop(f, m) == if core == "" then Absent else Text(core + "\n")
  {
    if f.Text? {
      var user, items: seq<Item>, last :| IsLayout(f.t, user, items, last) && Settle(user) == core
          && Blocks(items) == blocks;
      var items', last' := CutLayout(user, items, last, m);
      NoBlocks(items');
      TrimSpaceIgnoresNewlines(user, last');
    }
  }
}
