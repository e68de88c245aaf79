/**
 What any number of applies and stops by the two managers leave in ndppd.conf.
 */
module NdppdProofs {
  import opened NdppdText

  // ---- occurrences in concatenations --------------------------------------------------------------

  /** `y` cannot carry on an occurrence of `m` begun before it: its first character is in no later
      place of `m`. */
  predicate Breaks(m: string, y: string) {
    y == "" || forall k :: 1 <= k < |m| ==> m[k] != y[0]
  }

  lemma OccursChar(m: string, t: string, i: nat, k: nat)
    requires OccursAt(m, t, i) && k < |m|
    ensures t[i + k] == m[k]
  {
    assert t[i..i + |m|][k] == t[i + k];
  }

  lemma OccursInJoin(m: string, x: string, y: string)
    requires Occurs(m, x + y) && Breaks(m, y)
    ensures Occurs(m, x) || Occurs(m, y)
  {
    var i: nat :| OccursAt(m, x + y, i);
    if i >= |x| {
      assert (x + y)[i..i + |m|] == y[i - |x|..i - |x| + |m|];
      assert OccursAt(m, y, i - |x|);
    } else if i + |m| <= |x| {
      assert (x + y)[i..i + |m|] == x[i..i + |m|];
      assert OccursAt(m, x, i);
    } else {
      OccursChar(m, x + y, i, |x| - i);
      assert false;
    }
  }

  lemma OccursInPart(m: string, x: string, y: string, z: string)
    requires Occurs(m, y)
    ensures Occurs(m, x + y + z)
  {
    var i: nat :| OccursAt(m, y, i);
    assert (x + y + z)[|x| + i..|x| + i + |m|] == y[i..i + |m|];
    assert OccursAt(m, x + y + z, |x| + i);
  }

  lemma NotBefore(x: string, m: string, y: string, i: nat)
    requires !Occurs(m, x) && m != "" && Breaks(m, m) && i < |x|
    ensures !OccursAt(m, x + m + y, i)
  {
    var t := x + m + y;
    if i + |m| <= |x| {
      assert !OccursAt(m, x, i);
      assert t[i..i + |m|] == x[i..i + |m|];
    } else {
      assert t[i..][|x| - i] == m[0];
      assert i + |m| <= |t| ==> t[i..i + |m|][|x| - i] == m[0];
    }
  }

  lemma FindAfter(x: string, m: string, y: string)
    requires !Occurs(m, x) && m != "" && Breaks(m, m)
    ensures Find(x + m + y, m) == At(|x|)
  {
    var t := x + m + y;
    assert t[|x|..|x| + |m|] == m;
    assert OccursAt(m, t, |x|);
    forall i: nat | i < |x| ensures !OccursAt(m, t, i) {
      NotBefore(x, m, y, i);
    }
  }

  lemma FindNothing(t: string, m: string)
    ensures Find(t, m).Nowhere? <==> !Occurs(m, t)
  {
  }

  // ---- the markers --------------------------------------------------------------------------------

  /** Markers start with '#' and have no other '#' and no newline; no marker lies in another. */
  lemma Markers(m: Manager, n: Manager)
    ensures Begin(m) != "" && End(m) != "" && Breaks(Begin(m), Begin(n)) && Breaks(End(m), End(n))
              && Breaks(End(m), Begin(n)) && Breaks(Begin(m), End(n))
    ensures forall y: string :: y != "" && y[0] == '\n' ==> Breaks(Begin(m), y) && Breaks(End(m), y)
    ensures m != n ==> !Occurs(Begin(m), Begin(n))
    ensures !Occurs(Begin(m), End(n))
  {
    BeginElsewhere(m, n);
    hide Occurs;
  }

  lemma BeginElsewhere(m: Manager, n: Manager)
    ensures m != n ==> !Occurs(Begin(m), Begin(n))
    ensures !Occurs(Begin(m), End(n))
  {
    forall i: nat ensures m != n ==> !OccursAt(Begin(m), Begin(n), i) {
      if i == 0 && |Begin(m)| <= |Begin(n)| { assert Begin(n)[0..|Begin(m)|][12] == Begin(n)[12]; }
      if i > 0 && i + |Begin(m)| <= |Begin(n)| { assert Begin(n)[i..i + |Begin(m)|][0] == Begin(n)[i]; }
    }
    forall i: nat ensures !OccursAt(Begin(m), End(n), i) {}
  }

  /** A section's parameters must not bring markers with them. */
  ghost predicate CleanBody(body: string) {
    body != "" && body[0] == '\n' && forall m: Manager :: !Occurs(Begin(m), body) && !Occurs(End(m), body)
  }

  lemma MatchBetween(x: string, b: string, body: string, e: string, y: string)
    requires b != "" && e != "" && Breaks(b, b) && Breaks(e, e) && !Occurs(b, x) && !Occurs(e, body)
    ensures MatchSection(x + b + (body + e + y), b, e) == Section(x, body, y)
  {
    var rest := body + e + y;
    var t := x + b + rest;
    FindAfter(x, b, rest);
    assert t[..|x|] == x && t[|x| + |b|..] == rest;
    FindAfter(body, e, y);
    assert rest[..|body|] == body && rest[|body| + |e|..] == y;
  }

  lemma Regroup(x: string, b: string, body: string, e: string, y: string)
    ensures x + (b + body + e) + y == x + b + (body + e + y)
  {
  }

  lemma MatchBlock(x: string, m: Manager, body: string, y: string)
    requires !Occurs(Begin(m), x) && !Occurs(End(m), body)
    ensures Matched(x + Block(m, body) + y, m) == Section(x, body, y)
  {
    hide Begin;
    hide End;
    Markers(m, m);
    MatchBetween(x, Begin(m), body, End(m), y);
    Regroup(x, Begin(m), body, End(m), y);
  }

  lemma ReplaceBlock(x: string, m: Manager, body: string, y: string, s: string)
    requires !Occurs(Begin(m), x) && !Occurs(End(m), body)
    ensures Rewrite(x + Block(m, body) + y, m, s) == x + s + Rewrite(y, m, s)
  {
    hide Begin;
    hide End;
    MatchBlock(x, m, body, y);
  }

  lemma ReplaceNothing(t: string, m: Manager, s: string)
    requires !Occurs(Begin(m), t)
    ensures Rewrite(t, m, s) == t && Matched(t, m).NoSection?
  {
    FindNothing(t, Begin(m));
  }

  // ---- Apply twice --------------------------------------------------------------------------------

  lemma PrefixHasNoneBefore(t: string, m: string, n: nat)
    requires n <= |t| && forall i: nat :: i < n ==> !OccursAt(m, t, i)
    requires m != ""
    ensures !Occurs(m, t[..n])
  {
    forall i: nat ensures !OccursAt(m, t[..n], i) {
      if i + |m| <= n {
        assert !OccursAt(m, t, i);
        assert t[..n][i..i + |m|] == t[i..i + |m|];
      }
    }
  }

  lemma BeforeHasNoBegin(t: string, m: Manager)
    requires Matched(t, m).Section?
    ensures !Occurs(Begin(m), Matched(t, m).before)
  {
    PrefixHasNoneBefore(t, Begin(m), Find(t, Begin(m)).pos);
  }

  lemma {:induction false} ReplaceTwice(t: string, m: Manager, body: string)
    requires !Occurs(End(m), body)
    ensures var r := Rewrite(t, m, Block(m, body));
            Rewrite(r, m, Block(m, body)) == r
            && (Matched(t, m).Section? ==> Matched(r, m).Section?)
    decreases |t|
  {
    match Matched(t, m)
    case NoSection =>
    case Section(x, _, y) =>
      ReplaceTwice(y, m, body);
      BeforeHasNoBegin(t, m);
      var tail := Rewrite(y, m, Block(m, body));
      MatchBlock(x, m, body, tail);
      ReplaceBlock(x, m, body, tail, Block(m, body));
  }

  lemma {:induction false} TrimNewlinesPart(t: string) returns (n: nat)
    ensures t == TrimNewlines(t) + Newlines(n)
    ensures TrimNewlines(t) == "" || TrimNewlines(t)[|TrimNewlines(t)| - 1] != '\n'
  {
    if t != "" && t[|t| - 1] == '\n' {
      n := TrimNewlinesPart(t[..|t| - 1]);
      assert t == t[..|t| - 1] + "\n";
      assert Newlines(n + 1) == Newlines(n) + "\n";
      n := n + 1;
    } else {
      n := 0;
    }
  }

  function Newlines(n: nat): (r: string)
    ensures |r| == n && forall i :: 0 <= i < n ==> r[i] == '\n'
  {
    seq(n, _ => '\n')
  }

  lemma NoBeginAppended(m: Manager, t: string, n: nat)
    requires !Occurs(Begin(m), t)
    ensures !Occurs(Begin(m), t + Newlines(n))
  {
    Markers(m, m);
    forall i: nat ensures !OccursAt(Begin(m), Newlines(n), i) {
      if i + |Begin(m)| <= n { assert Newlines(n)[i..i + |Begin(m)|][0] == '\n'; }
    }
    if Occurs(Begin(m), t + Newlines(n)) {
      OccursInJoin(Begin(m), t, Newlines(n));
      assert false;
    }
  }

  lemma NoBeginTrimmed(m: Manager, t: string)
    requires !Occurs(Begin(m), t)
    ensures !Occurs(Begin(m), TrimNewlines(t))
  {
    var n := TrimNewlinesPart(t);
    assert "" + TrimNewlines(t) + Newlines(n) == t;
    if Occurs(Begin(m), TrimNewlines(t)) {
      OccursInPart(Begin(m), "", TrimNewlines(t), Newlines(n));
      assert false;
    }
  }

  // ---- Stop after Apply ---------------------------------------------------------------------------

  lemma {:induction false} TrimRightJoin(t: string, n: nat)
    ensures TrimRight(t + Newlines(n)) == TrimRight(t)
    decreases n
  {
    if n > 0 {
      assert (t + Newlines(n))[..|t| + n - 1] == t + Newlines(n - 1);
      TrimRightJoin(t, n - 1);
    } else {
      assert t + Newlines(0) == t;
    }
  }

  lemma {:induction false} TrimLeftParts(t: string)
    ensures |TrimLeft(t)| <= |t| && TrimLeft(t) == t[|t| - |TrimLeft(t)|..]
    ensures TrimLeft(t) == "" || !IsSpace(TrimLeft(t)[0])
  {
    if t != "" && IsSpace(t[0]) {
      TrimLeftParts(t[1..]);
      var n := |TrimLeft(t)|;
      assert t[1..][|t| - 1 - n..] == t[|t| - n..];
    } else {
      assert t[0..] == t;
    }
  }

  lemma {:induction false} TrimRightParts(t: string)
    ensures |TrimRight(t)| <= |t| && TrimRight(t) == t[..|TrimRight(t)|]
    ensures TrimRight(t) == "" || !IsSpace(TrimRight(t)[|TrimRight(t)| - 1])
    ensures forall i :: |TrimRight(t)| <= i < |t| ==> IsSpace(t[i])
  {
    if t != "" && IsSpace(t[|t| - 1]) {
      TrimRightParts(t[..|t| - 1]);
    }
  }

  lemma {:induction false} TrimLeftJoin(t: string, y: string)
    ensures TrimLeft(t + y) == if TrimLeft(t) == "" then TrimLeft(y) else TrimLeft(t) + y
  {
    if t == "" {
      assert t + y == y;
    } else if IsSpace(t[0]) {
      assert (t + y)[1..] == t[1..] + y;
      TrimLeftJoin(t[1..], y);
    } else {
      assert (t + y)[0] == t[0];
    }
  }

  lemma {:induction false} NewlinesTrimLeft(n: nat, y: string)
    ensures TrimLeft(Newlines(n) + y) == TrimLeft(y)
  {
    if n == 0 {
      assert Newlines(0) + y == y;
    } else {
      assert (Newlines(n) + y)[1..] == Newlines(n - 1) + y;
      NewlinesTrimLeft(n - 1, y);
    }
  }

  /** Newlines at the end, and the newlines trimmed off, do not show after TrimSpace. */
  lemma TrimSpaceIgnoresNewlines(t: string, n: nat)
    ensures TrimSpace(t + Newlines(n)) == TrimSpace(t)
  {
    TrimLeftJoin(t, Newlines(n));
    if TrimLeft(t) == "" {
      NewlinesTrimLeft(n, "");
      assert Newlines(n) + "" == Newlines(n);
    } else {
      TrimRightJoin(TrimLeft(t), n);
    }
  }

  lemma TrimmedNewlinesAreSpace(t: string)
    ensures TrimSpace(TrimNewlines(t)) == TrimSpace(t)
  {
    var n := TrimNewlinesPart(t);
    TrimSpaceIgnoresNewlines(TrimNewlines(t), n);
  }

  lemma {:induction false} TrimSpaceTwice(t: string)
    ensures TrimSpace(TrimSpace(t)) == TrimSpace(t)
  {
    var u := TrimSpace(t);
    TrimLeftParts(t);
    TrimRightParts(TrimLeft(t));
    assert u != "" ==> u[0] == TrimLeft(t)[0];
  }

  function Settled(t: string): File {
    var c := TrimSpace(t);
    if c == "" || c == HEADER then Absent else Text(c + "\n")
  }

  /** For any file text without this manager's section, stopping after applying gives back the
      trimmed text and a newline, or no file when nothing or only the header was there. */
  lemma StopUndoesApply(t: string, m: Manager, body: string)
    requires t != "" && !Occurs(Begin(m), t) && !Occurs(End(m), body)
    ensures Stop(Apply(Text(t), m, body), m) == Settled(t)
  {
    ReplaceNothing(t, m, Block(m, body));
    var kept := TrimNewlines(t);
    NoBeginTrimmed(m, t);
    AppendedBlock(kept, m, body);
    TrimSpaceIgnoresNewlines(kept, 3);
    TrimmedNewlinesAreSpace(t);
  }

  /** Cutting the one section out of a text that ends with it leaves only newlines behind. */
  lemma AppendedBlock(kept: string, m: Manager, body: string)
    requires !Occurs(Begin(m), kept) && !Occurs(End(m), body)
    ensures Rewrite(kept + "\n\n" + Block(m, body) + "\n", m, "") == kept + Newlines(3)
  {
    hide Begin;
    hide End;
    ReplaceAppended(kept, m, body, "");
    assert kept + "\n\n" + "" + "\n" == kept + Newlines(3);
  }

  lemma ReplaceAppended(kept: string, m: Manager, body: string, s: string)
    requires !Occurs(Begin(m), kept) && !Occurs(End(m), body)
    ensures var t := kept + "\n\n" + Block(m, body) + "\n";
            Matched(t, m).Section?
            && Rewrite(t, m, s) == kept + "\n\n" + s + "\n"
  {
    hide Begin;
    hide End;
    assert Newlines(2) == "\n\n";
    NoBeginAppended(m, kept, 2);
    MatchBlock(kept + "\n\n", m, body, "\n");
    ReplaceBlock(kept + "\n\n", m, body, "\n", s);
    NewlineHasNoBegin(m);
    ReplaceNothing("\n", m, s);
  }

  lemma NewlineHasNoBegin(m: Manager)
    ensures !Occurs(Begin(m), "\n") && !Occurs(Begin(m), "") && !Occurs(Begin(m), HEADER)
  {
    forall i: nat ensures !OccursAt(Begin(m), "\n", i) && !OccursAt(Begin(m), "", i)
        && !OccursAt(Begin(m), HEADER, i) {}
  }

  lemma StopUndoesFirstApply(m: Manager, body: string)
    requires !Occurs(End(m), body)
    ensures Stop(Apply(Absent, m, body), m) == Absent && Stop(Apply(Text(""), m, body), m) == Absent
  {
    hide Begin;
    hide End;
    NewlineHasNoBegin(m);
    AppendedBlock(HEADER, m, body);
    TrimSpaceIgnoresNewlines(HEADER, 3);
    assert TrimSpace(HEADER) == HEADER;
  }

  // ---- Apply twice --------------------------------------------------------------------------------

  lemma ApplyTwiceMatched(t: string, m: Manager, body: string)
    requires !Occurs(End(m), body) && t != "" && Matched(t, m).Section?
    ensures Apply(Apply(Text(t), m, body), m, body) == Apply(Text(t), m, body)
  {
    ReplaceTwice(t, m, body);
    var r := Rewrite(t, m, Block(m, body));
    assert Matched(r, m).Section? && r != "";
  }

  lemma ApplyTwiceAppended(t: string, m: Manager, body: string)
    requires !Occurs(End(m), body) && !Occurs(Begin(m), t)
    ensures Apply(Apply(Text(t), m, body), m, body) == Apply(Text(t), m, body)
    ensures t == "" ==> Apply(Absent, m, body) == Apply(Text(t), m, body)
  {
    NewlineHasNoBegin(m);
    ReplaceNothing(t, m, "");
    NoBeginTrimmed(m, t);
    ReplaceAppended(if t == "" then HEADER else TrimNewlines(t), m, body, Block(m, body));
  }

  /** Starts with '#', has no other '#', and no newline. */
  predicate Mark(b: string) {
    b != "" && b[0] == '#' && forall k :: 1 <= k < |b| ==> b[k] != '#' && b[k] != '\n'
  }

  lemma MarkersAreMarks(m: Manager)
    ensures Mark(Begin(m)) && Mark(End(m)) && !Occurs(End(m), Begin(m))
  {
    EndNotInBegin(m);
  }

  lemma EndNotInBegin(m: Manager)
    ensures !Occurs(End(m), Begin(m))
  {
    NotWithin(End(m), Begin(m));
  }

  /** Of two marks with a different seventh character, one does not lie in the other. */
  lemma NotWithin(e: string, b: string)
    requires Mark(e) && Mark(b) && 6 < |e| <= |b| && e[6] != b[6]
    ensures !Occurs(e, b)
  {
    forall i: nat ensures !OccursAt(e, b, i) {
      if i == 0 { assert b[0..|e|][6] == b[6]; }
      if i > 0 && i + |e| <= |b| { assert b[i..i + |e|][0] == b[i]; }
    }
  }

  lemma MarkInKept(kept: string, n: nat, b: string, i: nat)
    requires Mark(b) && OccursAt(b, kept + Newlines(n), i)
    ensures i + |b| <= |kept| && kept[i..i + |b|] == b
  {
    var t := kept + Newlines(n);
    OccursChar(b, t, i, |b| - 1);
    assert i + |b| <= |kept|;
    assert t[i..i + |b|] == kept[i..i + |b|];
  }

  /** Trimming newlines at the end takes no part of a marker away, and brings none. */
  lemma StrayKept(t: string, kept: string, n: nat, i: nat, b: string, e: string)
    requires Mark(b) && t == kept + Newlines(n) && OccursAt(b, t, i) && Find(t[i + |b|..], e).Nowhere?
    ensures i + |b| <= |kept| && kept == t[..i] + b + kept[i + |b|..] && !Occurs(e, kept[i + |b|..])
  {
    MarkInKept(kept, n, b, i);
    var stray, rest := kept[i + |b|..], t[i + |b|..];
    assert rest == "" + stray + Newlines(n);
    assert t[..i] == kept[..i];
    FindNothing(rest, e);
    if Occurs(e, stray) {
      OccursInPart(e, "", stray, Newlines(n));
      assert false;
    }
  }

  lemma NoEndBetween(x: string, b: string, e: string, body: string)
    requires Mark(b) && Mark(e) && !Occurs(e, x) && !Occurs(e, body) && !Occurs(e, b) && body != "" && body[0] == '\n'
    ensures !Occurs(e, x + "\n\n" + b + body)
  {
    forall i: nat ensures !OccursAt(e, "\n\n", i) {
      if i + |e| <= 2 { assert "\n\n"[i..i + |e|][0] == '\n'; }
    }
    if Occurs(e, x + "\n\n" + b + body) {
      OccursInJoin(e, x + "\n\n" + b, body);
      OccursInJoin(e, x + "\n\n", b);
      OccursInJoin(e, x, "\n\n");
      assert false;
    }
  }

  /** With a begin marker that has no end marker after it, the second Apply takes everything from
      there to the section appended by the first for the old section, and drops the text between. */
  lemma ApplyTwiceStray(t: string, m: Manager, body: string)
    requires !Occurs(End(m), body) && body != "" && body[0] == '\n'
    requires Occurs(Begin(m), t) && Matched(t, m).NoSection?
    ensures Apply(Apply(Text(t), m, body), m, body) == Text(t[..Find(t, Begin(m)).pos] + Block(m, body) + "\n")
    ensures Apply(Apply(Text(t), m, body), m, body) != Apply(Text(t), m, body)
  {
    var stray := StrayFacts(t, m, body);
    var i := Find(t, Begin(m)).pos;
    StrayReplaced(TrimNewlines(t), t[..i], stray, m, body);
    StrayIsShorter(t, i, m, body);
    assert t != "";
  }

  lemma StrayFacts(t: string, m: Manager, body: string) returns (stray: string)
    requires !Occurs(End(m), body) && body != "" && body[0] == '\n'
    requires Occurs(Begin(m), t) && Matched(t, m).NoSection?
    ensures var i := Find(t, Begin(m)).pos;
            && i + |Begin(m)| <= |TrimNewlines(t)| <= |t| && TrimNewlines(t) == t[..i] + Begin(m) + stray
            && !Occurs(Begin(m), t[..i]) && !Occurs(End(m), stray + "\n\n" + Begin(m) + body)
  {
    var b, e, i := Begin(m), End(m), Find(t, Begin(m)).pos;
    MarkersAreMarks(m);
    FindNothing(t, b);
    var n := TrimNewlinesPart(t);
    StrayKept(t, TrimNewlines(t), n, i, b, e);
    stray := TrimNewlines(t)[i + |b|..];
    NoEndBetween(stray, b, e, body);
    PrefixHasNoneBefore(t, b, i);
  }

  lemma StrayIsShorter(t: string, i: nat, m: Manager, body: string)
    requires i + |Begin(m)| <= |TrimNewlines(t)|
    ensures i <= |t| && TrimNewlines(t) + "\n\n" + Block(m, body) + "\n" != t[..i] + Block(m, body) + "\n"
  {
    var n := TrimNewlinesPart(t);
    assert |TrimNewlines(t) + "\n\n" + Block(m, body) + "\n"| > |t[..i] + Block(m, body) + "\n"|;
  }

  lemma StrayReplaced(kept: string, x: string, stray: string, m: Manager, body: string)
    requires kept == x + Begin(m) + stray && !Occurs(Begin(m), x) && !Occurs(End(m), stray + "\n\n" + Begin(m) + body)
    ensures var r := kept + "\n\n" + Block(m, body) + "\n";
            r != "" && Matched(r, m).Section?
            && Rewrite(r, m, Block(m, body)) == x + Block(m, body) + "\n"
  {
    hide Begin;
    hide End;
    var between := stray + "\n\n" + Begin(m) + body;
    var r := kept + "\n\n" + Block(m, body) + "\n";
    assert r == x + Block(m, between) + "\n";
    MatchBlock(x, m, between, "\n");
    ReplaceBlock(x, m, between, "\n", Block(m, body));
    NewlineHasNoBegin(m);
    ReplaceNothing("\n", m, Block(m, body));
  }

  /** Applying the same section again changes nothing exactly when the file has a whole section of
      this manager or no begin marker of it. */
  lemma ApplyIsIdempotentIff(t: string, m: Manager, body: string)
    requires !Occurs(End(m), body) && body != "" && body[0] == '\n'
    ensures Apply(Apply(Text(t), m, body), m, body) == Apply(Text(t), m, body)
            <==> Matched(t, m).Section? || !Occurs(Begin(m), t)
  {
    NewlineHasNoBegin(m);
    if Matched(t, m).Section? {
      ApplyTwiceMatched(t, m, body);
    } else if Occurs(Begin(m), t) {
      ApplyTwiceStray(t, m, body);
    } else {
      ApplyTwiceAppended(t, m, body);
    }
  }
}
