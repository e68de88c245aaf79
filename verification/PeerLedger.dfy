/**
 The counters of one peer over whole runs.
 */
module PeerLedger {
  import opened Ipam
  import opened PeerModel
  import opened PeerRuns

  // ---- events of one peer -------------------------------------------------------------------------

  datatype Counters = Counters(up: int, down: int, allTime: int)

  datatype Event = Sampled(tx: int, rx: int) | Erased

  function CountersOf(p: Peer): Counters {
    Counters(p.up, p.down, p.allTime)
  }

  function Happen(c: Counters, e: Event): Counters {
    match e
    case Sampled(tx, rx) => Counters(tx, rx, c.allTime + Rise(c.up, tx) + Rise(c.down, rx))
    case Erased => c.(up := 0, down := 0)
  }

  function Replay(c: Counters, es: seq<Event>): Counters {
    if es == [] then c else Happen(Replay(c, es[..|es| - 1]), es[|es| - 1])
  }

  lemma {:induction false} ReplayJoin(c: Counters, es: seq<Event>, fs: seq<Event>)
    ensures Replay(c, es + fs) == Replay(Replay(c, es), fs)
    decreases |fs|
  {
    if fs == [] {
      assert es + [] == es;
    } else {
      assert (es + fs)[..|es + fs| - 1] == es + fs[..|fs| - 1];
      ReplayJoin(c, es, fs[..|fs| - 1]);
    }
  }

  /** Bytes by which the counters went up. */
  function Risen(c: Counters, es: seq<Event>): nat {
    if es == [] then 0
    else
      var d, e := Replay(c, es[..|es| - 1]), es[|es| - 1];
      Risen(c, es[..|es| - 1]) + if e.Sampled? then Rise(d.up, e.tx) + Rise(d.down, e.rx) else 0
  }

  /** Bytes by which the counters went down: samples of a restarted interface, and erasures. */
  function Lost(c: Counters, es: seq<Event>): int {
    if es == [] then 0
    else
      var d, e := Replay(c, es[..|es| - 1]), es[|es| - 1];
      Lost(c, es[..|es| - 1]) + if e.Sampled? then Rise(e.tx, d.up) + Rise(e.rx, d.down) else d.up + d.down
  }

  /** The lifetime total grows by exactly the rises, and its distance from the counters by exactly
      what the counters lost. */
  lemma {:induction false} TotalsBalance(c: Counters, es: seq<Event>)
    ensures var d := Replay(c, es);
            && d.allTime == c.allTime + Risen(c, es)
            && d.allTime - (d.up + d.down) == c.allTime - (c.up + c.down) + Lost(c, es)
  {
    if es != [] { TotalsBalance(c, es[..|es| - 1]); }
  }

  ghost predicate Monotone(c: Counters, es: seq<Event>) {
    && (forall i :: 0 <= i < |es| ==> es[i].Sampled? && es[i].tx >= c.up && es[i].rx >= c.down)
    && forall i, j :: 0 <= i < j < |es| ==>
                     es[i].Sampled? && es[j].Sampled? && es[i].tx <= es[j].tx && es[i].rx <= es[j].rx
  }

  /** While the interface keeps counting and nothing is reset, the total telescopes. */
  lemma {:induction false} MonotoneTelescopes(c: Counters, es: seq<Event>)
    requires Monotone(c, es) && es != []
    ensures Replay(c, es).allTime == c.allTime + (es[|es| - 1].tx - c.up) + (es[|es| - 1].rx - c.down)
  {
    var front := es[..|es| - 1];
    assert front == [] || es[|es| - 2] == front[|front| - 1];
    if front != [] {
      assert forall i :: 0 <= i < |front| ==> front[i] == es[i];
      MonotoneTelescopes(c, front);
    }
  }

  function Min(a: int, b: int): int {
    if a < b then a else b
  }

  /** The interface does not forget when the database does: after a reset or renewal the next sample
      adds the whole cumulative counters again. Of what was stored, all that the interface still
      reports is counted twice. */
  lemma ErasedIsCountedAgain(c: Counters, tx: int, rx: int)
    requires c.up >= 0 && c.down >= 0 && tx >= 0 && rx >= 0
    ensures Replay(c, [Erased, Sampled(tx, rx)]).allTime
            == Replay(c, [Sampled(tx, rx)]).allTime + Min(c.up, tx) + Min(c.down, rx)
    ensures Replay(c, [Erased, Sampled(tx, rx)]).up == tx && Replay(c, [Erased, Sampled(tx, rx)]).down == rx
  {
    assert [Erased, Sampled(tx, rx)][..1] == [Erased] && [Erased][..0] == [] && [Sampled(tx, rx)][..0] == [];
  }

  // ---- the events an operation means for a peer ---------------------------------------------------

  function Own(stats: seq<Stat>, key: string): seq<Event> {
    if stats == [] then []
    else
      var s := stats[|stats| - 1];
      Own(stats[..|stats| - 1], key) + if s.key == key then [Sampled(s.tx, s.rx)] else []
  }

  lemma IndexOfOwnKey(ps: seq<Peer>, i: nat)
    requires Apart(ps) && i < |ps|
    ensures IndexOfKey(ps, ps[i].key) == Some(i)
  {
    ApartEither(ps);
    var r := IndexOfKey(ps, ps[i].key).value;
    assert Clash(ps[i], ps[r]);
  }

  lemma SampleOneAt(ps: seq<Peer>, s: Stat, i: nat)
    requires Apart(ps) && i < |ps|
    ensures SampleOne(ps, s)[i] == if s.key == ps[i].key then Sample(ps[i], s) else ps[i]
  {
    IndexOfOwnKey(ps, i);
  }

  /** Each peer takes the reports for its key, in order, and no others. */
  lemma {:induction false} SampleAllAt(ps: seq<Peer>, stats: seq<Stat>, i: nat)
    requires Apart(ps) && i < |ps|
    ensures CountersOf(SampleAll(ps, stats)[i]) == Replay(CountersOf(ps[i]), Own(stats, ps[i].key))
    ensures SampleAll(ps, stats)[i]
              == ps[i].(up := SampleAll(ps, stats)[i].up, down := SampleAll(ps, stats)[i].down,
                        allTime := SampleAll(ps, stats)[i].allTime)
  {
    if stats != [] {
      var front, s := stats[..|stats| - 1], stats[|stats| - 1];
      SampleAllAt(ps, front, i);
      var before := SampleAll(ps, front);
      SamplingKeepsIdentities(ps, front);
      SamplesKeepApart(ps, before);
      SampleOneAt(before, s, i);
      if s.key == ps[i].key {
        OneMore(CountersOf(ps[i]), Own(front, ps[i].key), Sampled(s.tx, s.rx));
      } else {
        assert Own(front, ps[i].key) + [] == Own(front, ps[i].key);
      }
    }
  }

  lemma OneMore(c: Counters, es: seq<Event>, e: Event)
    ensures Replay(c, es + [e]) == Happen(Replay(c, es), e)
  {
    assert (es + [e])[..|es|] == es;
  }

  lemma SamplesKeepApart(ps: seq<Peer>, qs: seq<Peer>)
    requires Apart(ps) && SameIdentities(ps, qs)
    ensures Apart(qs)
  {
    forall i, j | 0 <= i < j < |qs| ensures !Clash(qs[i], qs[j]) {
      assert SameIdentity(ps[i], qs[i]) && SameIdentity(ps[j], qs[j]) && !Clash(ps[i], ps[j]);
    }
  }

  /** What an operation does to the counters of peer `p`. */
  function EventsOf(t: Tunnel, op: Op, p: Peer): seq<Event> {
    match op
    case OpTick(stats, c, _) =>
      if !t.server.enable || stats.None? then []
      else Own(stats.value, p.key) + if Due(p, c.renew) then [Erased] else []
    case OpReset(id) => if p.id == id then [Erased] else []
    case OpResetAll(_, unconditional, _) => if unconditional then [Erased] else []
    case _ => []
  }

  function Row(t: Tunnel, id: nat): (r: Option<Peer>)
    ensures r.Some? ==> r.value.id == id && r.value in t.peers
  {
    match IndexOfId(t.peers, id)
    case None => None
    case Some(i) => Some(t.peers[i])
  }

  lemma RowAt(t: Tunnel, i: nat)
    requires Inv(t) && i < |t.peers|
    ensures Row(t, t.peers[i].id) == Some(t.peers[i])
  {
    ApartEither(t.peers);
    var r := IndexOfId(t.peers, t.peers[i].id).value;
    assert Clash(t.peers[i], t.peers[r]);
  }

  lemma EnforcedCounters(p: Peer, c: Clocks)
    ensures CountersOf(Limit(Start(Renew(p, c.renew), c.start), c.limit))
              == if Due(p, c.renew) then Happen(CountersOf(p), Erased) else CountersOf(p)
  {
  }

  lemma TickCounters(t: Tunnel, stats: seq<Stat>, c: Clocks, works: bool, i: nat)
    requires Inv(t) && i < |t.peers| && t.server.enable
    ensures var u := Tick(t, Some(stats), c, works);
            |u.peers| == |t.peers| && u.peers[i].id == t.peers[i].id
            && CountersOf(u.peers[i])
                == Replay(CountersOf(t.peers[i]), EventsOf(t, OpTick(Some(stats), c, works), t.peers[i]))
  {
    var p := t.peers[i];
    var sampled := SampleAll(t.peers, stats);
    SampleAllAt(t.peers, stats, i);
    EnforcedAt(sampled, c, i);
    EnforcedCounters(sampled[i], c);
    TickKeepsIdentities(t, Some(stats), c, works);
    assert SameIdentity(p, Tick(t, Some(stats), c, works).peers[i]);
    var own := Own(stats, p.key);
    if Due(p, c.renew) {
      OneMore(CountersOf(p), own, Erased);
    } else {
      assert own + [] == own;
    }
  }

  /** A step that neither updates nor adds this peer acts on its counters through its events only. */
  lemma CountersAlongStep(t: Tunnel, op: Op, id: nat)
    requires Inv(t) && Guard(t, op) && !op.OpUpdate? && Row(t, id).Some? && Row(Apply(t, op), id).Some?
    ensures CountersOf(Row(Apply(t, op), id).value)
              == Replay(CountersOf(Row(t, id).value), EventsOf(t, op, Row(t, id).value))
  {
    var u := Apply(t, op);
    StepKeepsInv(t, op);
    var i := IndexOfId(t.peers, id).value;
    var p := t.peers[i];
    if op.OpTick? {
      if t.server.enable && op.stats.Some? {
        TickCounters(t, op.stats.value, op.clocks, op.works, i);
        RowAt(u, i);
      }
    } else if op.OpAdd? || op.OpDelete? {
      RowSurvives(t, op, i);
    } else {
      PlainStep(t, op, i);
      RowAt(u, i);
    }
  }

  lemma RowSurvives(t: Tunnel, op: Op, i: nat)
    requires Inv(t) && Inv(Apply(t, op)) && i < |t.peers| && (op.OpAdd? || op.OpDelete?)
               && Row(Apply(t, op), t.peers[i].id).Some?
    ensures Row(Apply(t, op), t.peers[i].id) == Some(t.peers[i])
  {
    if op.OpAdd? {
      AddKeepsRows(t, op.req, op.luck, i);
      RowAt(Apply(t, op), i);
    } else {
      DeleteKeepsRows(t, op, i);
    }
  }

  lemma AddKeepsRows(t: Tunnel, req: Peer, luck: Luck, i: nat)
    requires i < |t.peers|
    ensures var u := AddClient(t, req, luck).0; |u.peers| >= |t.peers| && u.peers[i] == t.peers[i]
  {
  }

  lemma DeleteKeepsRows(t: Tunnel, op: Op, i: nat)
    requires Inv(t) && op.OpDelete? && Inv(Apply(t, op)) && i < |t.peers| && Row(Apply(t, op), t.peers[i].id).Some?
    ensures Row(Apply(t, op), t.peers[i].id) == Some(t.peers[i])
  {
    hide Tick;
    var u := Apply(t, op);
    RowAt(t, i);
    var k := IndexOfId(t.peers, op.id);
    if k.Some? {
      assert u.peers == t.peers[..k.value] + t.peers[k.value + 1..];
      if k.value == i {
        GoneRow(t, u, i);
      } else {
        var j := if i < k.value then i else i - 1;
        assert u.peers[j] == t.peers[i];
        RowAt(u, j);
      }
    }
  }

  lemma GoneRow(t: Tunnel, u: Tunnel, i: nat)
    requires Inv(t) && i < |t.peers| && u.peers == t.peers[..i] + t.peers[i + 1..]
    ensures Row(u, t.peers[i].id).None?
  {
    ApartEither(t.peers);
    forall r | 0 <= r < |u.peers| ensures u.peers[r].id != t.peers[i].id {
      var j := if r < i then r else r + 1;
      assert u.peers[r] == t.peers[j] && !Clash(t.peers[i], t.peers[j]);
    }
  }

  lemma PlainStep(t: Tunnel, op: Op, i: nat)
    requires Inv(t) && i < |t.peers| && Row(Apply(t, op), t.peers[i].id).Some?
    requires !op.OpTick? && !op.OpUpdate? && !op.OpAdd? && !op.OpDelete?
    ensures var u := Apply(t, op);
            |u.peers| == |t.peers| && u.peers[i].id == t.peers[i].id
            && CountersOf(u.peers[i]) == Replay(CountersOf(t.peers[i]), EventsOf(t, op, t.peers[i]))
  {
    hide Row;
    hide Allocate4;
    hide Allocated6;
    OneMore(CountersOf(t.peers[i]), [], Erased);
    assert [] + [Erased] == [Erased];
    RowAt(t, i);
    ApartEither(t.peers);
    if op.OpReset? {
      var k := IndexOfId(t.peers, op.id);
      assert k.Some? && k.value != i ==> !Clash(t.peers[i], t.peers[k.value]);
    }
  }

  function EventsAlong(t: Tunnel, ops: seq<Op>, id: nat): seq<Event> {
    if ops == [] then []
    else
      var before := Run(t, ops[..|ops| - 1]);
      EventsAlong(t, ops[..|ops| - 1], id) +
      if Row(before, id).Some? then EventsOf(before, ops[|ops| - 1], Row(before, id).value) else []
  }

  /** The peer is there all along and nobody overwrites its row. */
  ghost predicate Lives(t: Tunnel, ops: seq<Op>, id: nat) {
    forall k :: 0 <= k <= |ops| ==> Row(Run(t, ops[..k]), id).Some? && (k < |ops| ==> !ops[k].OpUpdate?)
  }

  lemma LivesPrefix(t: Tunnel, ops: seq<Op>, id: nat)
    requires Lives(t, ops, id) && ops != []
    ensures Lives(t, ops[..|ops| - 1], id) && Row(Run(t, ops), id).Some? && !ops[|ops| - 1].OpUpdate?
  {
    hide Row;
    hide Apply;
    var front := ops[..|ops| - 1];
    forall k | 0 <= k <= |front| ensures Row(Run(t, front[..k]), id).Some? && (k < |front| ==> !front[k].OpUpdate?) {
      assert front[..k] == ops[..k];
    }
    assert ops[..|ops|] == ops;
  }

  /** The counters of a peer after any run are the replay of its own events. */
  lemma {:induction false} CountersAlongRun(t: Tunnel, ops: seq<Op>, id: nat)
    requires Inv(t) && Guarded(t, ops) && Lives(t, ops, id)
    ensures Row(t, id).Some? && Row(Run(t, ops), id).Some?
            && CountersOf(Row(Run(t, ops), id).value) == Replay(CountersOf(Row(t, id).value), EventsAlong(t, ops, id))
  {
    assert ops[..0] == [] && Row(Run(t, ops[..0]), id).Some?;
    if ops != [] {
      var front, op := ops[..|ops| - 1], ops[|ops| - 1];
      GuardedPrefix(t, ops);
      LivesPrefix(t, ops, id);
      CountersAlongRun(t, front, id);
      RunKeepsApart(t, front);
      var before := Run(t, front);
      CountersAlongStep(before, op, id);
      ReplayJoin(CountersOf(Row(t, id).value), EventsAlong(t, front, id), EventsOf(before, op, Row(before, id).value));
    }
  }

  /** Over a whole run the lifetime total grows by exactly the rises of the peer's counters and never
      shrinks; its lead over the counters is what they lost. */
  lemma RunTotals(t: Tunnel, ops: seq<Op>, id: nat)
    requires Inv(t) && Guarded(t, ops) && Lives(t, ops, id)
    ensures Row(t, id).Some? && Row(Run(t, ops), id).Some? &&
            var p, q, es := Row(t, id).value, Row(Run(t, ops), id).value, EventsAlong(t, ops, id);
            && q.allTime == p.allTime + Risen(CountersOf(p), es) >= p.allTime
            && q.allTime - (q.up + q.down) == p.allTime - (p.up + p.down) + Lost(CountersOf(p), es)
  {
    CountersAlongRun(t, ops, id);
    TotalsBalance(CountersOf(Row(t, id).value), EventsAlong(t, ops, id));
  }

  // ---- solvency -----------------------------------------------------------------------------------

  predicate Solvent(p: Peer) {
    p.allTime >= p.up + p.down && p.up >= 0 && p.down >= 0
  }

  ghost predicate AllSolvent(ps: seq<Peer>) {
    forall i :: 0 <= i < |ps| ==> Solvent(ps[i])
  }

  /** Rows sent by callers are solvent and reported counters are not negative. */
  ghost predicate Fair(op: Op) {
    match op
    case OpAdd(req, _) => Solvent(req)
    case OpUpdate(_, p, _) => Solvent(p)
    case OpTick(stats, _, _) => stats.Some? ==>
        forall k :: 0 <= k < |stats.value| ==> stats.value[k].tx >= 0 && stats.value[k].rx >= 0
    case _ => true
  }

  lemma {:induction false} SamplesKeepSolvent(ps: seq<Peer>, stats: seq<Stat>)
    requires AllSolvent(ps) && forall k :: 0 <= k < |stats| ==> stats[k].tx >= 0 && stats[k].rx >= 0
    ensures AllSolvent(SampleAll(ps, stats))
  {
    if stats != [] { SamplesKeepSolvent(ps, stats[..|stats| - 1]); }
  }

  lemma TickKeepsSolvent(t: Tunnel, stats: Option<seq<Stat>>, c: Clocks, works: bool)
    requires AllSolvent(t.peers) && Fair(OpTick(stats, c, works))
    ensures AllSolvent(Tick(t, stats, c, works).peers)
  {
    if t.server.enable && stats.Some? {
      SamplesKeepSolvent(t.peers, stats.value);
      var sampled := SampleAll(t.peers, stats.value);
      forall i | 0 <= i < |sampled| ensures Solvent(Enforced(sampled, c)[i]) {
        EnforcedAt(sampled, c, i);
      }
      assert |Enforced(sampled, c)| == |sampled|;
    }
  }

  lemma StepKeepsSolvent(t: Tunnel, op: Op)
    requires AllSolvent(t.peers) && Fair(op)
    ensures AllSolvent(Apply(t, op).peers)
  {
    if op.OpAdd? {
      AddKeepsSolvent(t, op.req, op.luck);
    } else if op.OpTick? {
      TickKeepsSolvent(t, op.stats, op.clocks, op.works);
    } else {
      EditKeepsSolvent(t, op);
    }
    hide AllSolvent;
    hide AddClient;
    hide Tick;
  }

  lemma EditKeepsSolvent(t: Tunnel, op: Op)
    requires AllSolvent(t.peers) && Fair(op) && !op.OpAdd? && !op.OpTick?
    ensures AllSolvent(Apply(t, op).peers)
  {
    if op.OpDelete? || op.OpToggle? || op.OpUpdate? {
      RowEditKeepsSolvent(t, op);
    } else {
      hide DeleteClient;
      hide ToggleClient;
      hide UpdateClient;
    }
  }

  lemma RowEditKeepsSolvent(t: Tunnel, op: Op)
    requires AllSolvent(t.peers) && Fair(op) && (op.OpDelete? || op.OpToggle? || op.OpUpdate?)
    ensures AllSolvent(Apply(t, op).peers)
  {
    hide IndexOfId;
  }

  lemma AddKeepsSolvent(t: Tunnel, req: Peer, luck: Luck)
    requires AllSolvent(t.peers) && Solvent(req)
    ensures AllSolvent(AddClient(t, req, luck).0.peers)
  {
    hide Allocate4;
    hide Allocated6;
  }

  /** The lifetime total never falls below the counters, for every peer of every run. */
  lemma {:induction false} RunKeepsSolvent(t: Tunnel, ops: seq<Op>)
    requires AllSolvent(t.peers) && forall k :: 0 <= k < |ops| ==> Fair(ops[k])
    ensures AllSolvent(Run(t, ops).peers)
  {
    if ops != [] {
      RunKeepsSolvent(t, ops[..|ops| - 1]);
      StepKeepsSolvent(Run(t, ops[..|ops| - 1]), ops[|ops| - 1]);
    }
  }
}
