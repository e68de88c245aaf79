/**
 Which inbounds may share a port, and the tags built from listen address and port
 (web/service/inbound.go, web/controller/inbound.go).
 */
module Ports {
  import opened Decimal

  /** `xray`: not one of the two tunnel protocols, whose rows are saved without a port check. */
  datatype Row = Row(listen: string, port: int, xray: bool, tag: string)

  type Table = map<int, Row>

  predicate AnyAddress(listen: string) {
    listen == "" || listen == "0.0.0.0" || listen == "::" || listen == "::0"
  }

  /** Two inbounds cannot both be bound. */
  predicate Conflict(listen: string, port: int, r: Row) {
    port == r.port && (listen == r.listen || AnyAddress(listen) || AnyAddress(r.listen))
  }

  lemma ConflictIsSymmetric(a: Row, b: Row)
    ensures Conflict(a.listen, a.port, b) <==> Conflict(b.listen, b.port, a)
  {
  }

  /** The two queries of checkPortExist. */
  predicate PortExists(t: Table, listen: string, port: int, ignoreId: int) {
    if AnyAddress(listen)
    then exists id :: id in t && t[id].port == port && (ignoreId > 0 ==> id != ignoreId)
    else exists id :: id in t && t[id].port == port
                      && (t[id].listen == listen || t[id].listen == "" || t[id].listen == "0.0.0.0"
                          || t[id].listen == "::" || t[id].listen == "::0")
                      && (ignoreId > 0 ==> id != ignoreId)
  }

  lemma PortExistsIff(t: Table, listen: string, port: int, ignoreId: int)
    ensures PortExists(t, listen, port, ignoreId)
            <==> exists id :: id in t && Conflict(listen, port, t[id]) && (ignoreId > 0 ==> id != ignoreId)
  {
    if PortExists(t, listen, port, ignoreId) {
      if AnyAddress(listen) {
        var id :| id in t && t[id].port == port && (ignoreId > 0 ==> id != ignoreId);
        assert Conflict(listen, port, t[id]);
      } else {
        var id :| id in t && t[id].port == port && (t[id].listen == listen || AnyAddress(t[id].listen))
            && (ignoreId > 0 ==> id != ignoreId);
        assert Conflict(listen, port, t[id]);
      }
    }
    if id :| id in t && Conflict(listen, port, t[id]) && (ignoreId > 0 ==> id != ignoreId) {
      assert t[id].port == port;
    }
  }

  // ---- tags ---------------------------------------------------------------------------------------

  function IntText(n: int): string {
    if n < 0 then "-" + Dec(-n) else Dec(n)
  }

  function TagFor(listen: string, port: int): string {
    if AnyAddress(listen) then "inbound-" + IntText(port) else "inbound-" + (listen + ":" + IntText(port))
  }

  lemma IntTextIsInjective(a: int, b: int)
    requires IntText(a) == IntText(b)
    ensures a == b
  {
    DecReadsBack(if a < 0 then -a else a);
    DecReadsBack(if b < 0 then -b else b);
    assert a < 0 ==> IntText(a)[0] == '-' && IntText(a)[1..] == Dec(-a);
    assert b < 0 ==> IntText(b)[0] == '-' && IntText(b)[1..] == Dec(-b);
  }

  lemma IntTextHasNoColon(n: int)
    ensures ':' !in IntText(n)
  {
    DecHasNo(if n < 0 then -n else n, ':');
  }

  /** A text is cut at its last separator in one way only. */
  lemma CutLast(a: string, b: string, sep: char, x: string, y: string)
    requires sep !in x && sep !in y && a + [sep] + x == b + [sep] + y
    ensures a == b && x == y
  {
    var t := a + [sep] + x;
    assert forall i :: |a| < i < |t| ==> t[i] == x[i - |a| - 1];
    assert forall i :: |b| < i < |t| ==> t[i] == y[i - |b| - 1];
    assert t[|a|] == sep && t[|b|] == sep;
    assert t[..|a|] == a && t[..|b|] == b && t[|a| + 1..] == x && t[|b| + 1..] == y;
  }

  lemma PrefixCancels(p: string, x: string, y: string)
    requires p + x == p + y
    ensures x == y
  {
    assert (p + x)[|p|..] == x && (p + y)[|p|..] == y;
  }

  lemma ColonTells(l: string, p: int)
    ensures AnyAddress(l) <==> ':' !in (if AnyAddress(l) then IntText(p) else l + ":" + IntText(p))
  {
    IntTextHasNoColon(p);
    assert (l + ":" + IntText(p))[|l|] == ':';
  }

  /** Two tags are equal exactly when the ports are and the listen addresses are, or both listen
      everywhere. */
  lemma TagsEqualIff(l: string, p: int, m: string, q: int)
    ensures TagFor(l, p) == TagFor(m, q) <==> p == q && (l == m || (AnyAddress(l) && AnyAddress(m)))
  {
    if TagFor(l, p) == TagFor(m, q) {
      IntTextHasNoColon(p);
      IntTextHasNoColon(q);
      var x := if AnyAddress(l) then IntText(p) else l + ":" + IntText(p);
      var y := if AnyAddress(m) then IntText(q) else m + ":" + IntText(q);
      PrefixCancels("inbound-", x, y);
      ColonTells(l, p);
      ColonTells(m, q);
      if AnyAddress(l) && AnyAddress(m) {
        IntTextIsInjective(p, q);
      } else if !AnyAddress(l) && !AnyAddress(m) {
        CutLast(l, m, ':', IntText(p), IntText(q));
        IntTextIsInjective(p, q);
      }
    }
  }

  // ---- steps --------------------------------------------------------------------------------------

  datatype Step =
    | AddInbound(id: int, listen: string, port: int)
    | AddTunnel(id: int, listen: string, port: int)
    | UpdateInbound(id: int, listen: string, port: int, xray: bool)
    | DelInbound(id: int)
    | SyncPort(id: int, port: int)

  datatype Answer = Done | PortTaken | TagTaken | NoSuchInbound

  /** The unique index on the tag column. */
  predicate TagUsed(t: Table, tag: string, but: int) {
    exists id :: id in t && id != but && t[id].tag == tag
  }

  function Saved(t: Table, id: int, r: Row): (Table, Answer) {
    if TagUsed(t, r.tag, id) then (t, TagTaken) else (t[id := r], Done)
  }

  function Apply(t: Table, s: Step): (Table, Answer) {
    match s
    case AddInbound(id, listen, port) =>
      if PortExists(t, listen, port, 0) then (t, PortTaken)
      else Saved(t, id, Row(listen, port, true, TagFor(listen, port)))
    case AddTunnel(id, listen, port) => Saved(t, id, Row(listen, port, false, TagFor(listen, port)))
    case UpdateInbound(id, listen, port, xray) =>
      if PortExists(t, listen, port, id) then (t, PortTaken)
      else if id !in t then (t, NoSuchInbound)
      else Saved(t, id, Row(listen, port, xray, TagFor(listen, port)))
    case DelInbound(id) => (t - {id}, Done)
    case SyncPort(id, port) => if id in t
        && !t[id].xray then (t[id := t[id].(port := port)], Done) else (t, NoSuchInbound)
  }

  /** Nobody but `but` can be reached at this address and port. */
  predicate AddressFree(t: Table, listen: string, port: int, but: int) {
    forall id :: id in t && (but <= 0 || id != but) && t[id].port == port ==>
      t[id].listen != listen && !Everywhere(listen) && !Everywhere(t[id].listen)
  }

  predicate Everywhere(listen: string) {
    listen in ["", "0.0.0.0", "::", "::0"]
  }

  /** The row a request stores, with the text of its tag. */
  predicate IsStored(r: Row, listen: string, port: int, xray: bool) {
    && r.listen == listen && r.port == port && r.xray == xray
    && r.tag == "inbound-" + (if Everywhere(listen) then "" else listen + ":") + IntText(port)
  }

  /** When a request is carried out, and the one row that it then changes. The tunnels skip the port check;
      a port sync changes the port of a tunnel row and not its tag. */
  lemma RequestsAre(t: Table, id: int, listen: string, port: int, xray: bool)
    ensures var (u, answer) := Apply(t, AddInbound(id, listen, port));
            && (answer == PortTaken <==> !AddressFree(t, listen, port, 0))
            && (answer == Done || answer == PortTaken || answer == TagTaken) && (answer != Done ==> u == t)
            && (answer == Done ==> u.Keys == t.Keys + {id} && IsStored(u[id], listen, port, true)
                                   && forall k :: k in t && k != id ==> u[k] == t[k] && t[k].tag != u[id].tag)
    ensures var (u, answer) := Apply(t, AddTunnel(id, listen, port));
            && (answer == Done || answer == TagTaken) && (answer != Done ==> u == t)
            && (answer == Done ==> u.Keys == t.Keys + {id} && IsStored(u[id], listen, port, false)
                                   && forall k :: k in t && k != id ==> u[k] == t[k] && t[k].tag != u[id].tag)
    ensures var (u, answer) := Apply(t, UpdateInbound(id, listen, port, xray));
            && (answer == PortTaken <==> !AddressFree(t, listen, port, id))
            && (answer == NoSuchInbound <==> AddressFree(t, listen, port, id) && id !in t)
            && (answer != Done ==> u == t)
            && (answer == Done ==> id in t && u.Keys == t.Keys && IsStored(u[id], listen, port, xray)
                                   && forall k :: k in t && k != id ==> u[k] == t[k] && t[k].tag != u[id].tag)
    ensures Apply(t, DelInbound(id)) == (t - {id}, Done)
    ensures var (u, answer) := Apply(t, SyncPort(id, port));
            && (answer == Done <==> id in t && !t[id].xray) && (answer != Done ==> u == t)
            && (answer == Done ==> u == t[id := Row(t[id].listen, port, false, t[id].tag)])
  {
    FreeIffNotTaken(t, listen, port, 0);
    FreeIffNotTaken(t, listen, port, id);
    StoredRow(listen, port);
    hide AddressFree;
    hide PortExists;
    hide TagFor;
  }

  lemma FreeIffNotTaken(t: Table, listen: string, port: int, but: int)
    ensures AddressFree(t, listen, port, but) <==> !PortExists(t, listen, port, but)
  {
    PortExistsIff(t, listen, port, but);
    hide PortExists;
    forall l ensures Everywhere(l) <==> AnyAddress(l) {}
    hide Everywhere;
    hide AnyAddress;
  }

  lemma StoredRow(listen: string, port: int)
    ensures forall xray :: IsStored(Row(listen, port, xray, TagFor(listen, port)), listen, port, xray)
  {
    hide IntText;
    assert Everywhere(listen) <==> AnyAddress(listen);
    assert "inbound-" + "" + IntText(port) == "inbound-" + IntText(port);
    assert "inbound-" + (listen + ":" + IntText(port)) == "inbound-" + (listen + ":") + IntText(port);
  }

  /** New ids are new and positive. */
  predicate Fresh(t: Table, s: Step) {
    match s
    case AddInbound(id, _, _) => id > 0 && id !in t
    case AddTunnel(id, _, _) => id > 0 && id !in t
    case UpdateInbound(id, _, _, _) => id > 0
    case _ => true
  }

  ghost predicate Inv(t: Table) {
    && (forall i, j :: i in t && j in t && i != j && t[i].xray && t[j].xray ==> !Conflict(t[i].listen, t[i].port, t[j]))
    && (forall i :: i in t && t[i].xray ==> t[i].tag == TagFor(t[i].listen, t[i].port))
  }

  lemma CheckedRowKeepsInv(t: Table, id: int, r: Row)
    requires Inv(t) && r.tag == TagFor(r.listen, r.port)
    requires forall j :: j in t && j != id ==> !Conflict(r.listen, r.port, t[j])
    ensures Inv(t[id := r])
  {
    var u := t[id := r];
    forall i, j | i in u && j in u && i != j && u[i].xray && u[j].xray ensures !Conflict(u[i].listen, u[i].port, u[j]) {
      if j == id {
        ConflictIsSymmetric(u[i], r);
      }
    }
  }

  lemma StepKeepsInv(t: Table, s: Step)
    requires Inv(t) && Fresh(t, s)
    ensures Inv(Apply(t, s).0)
  {
    match s
    case AddInbound(id, listen, port) =>
      PortExistsIff(t, listen, port, 0);
      if Apply(t, s).1 == Done {
        CheckedRowKeepsInv(t, id, Row(listen, port, true, TagFor(listen, port)));
      }
    case UpdateInbound(id, listen, port, xray) =>
      PortExistsIff(t, listen, port, id);
      if Apply(t, s).1 == Done {
        CheckedRowKeepsInv(t, id, Row(listen, port, xray, TagFor(listen, port)));
      }
    case _ =>
  }

  function Run(t: Table, steps: seq<Step>): Table {
    if steps == [] then t else Apply(Run(t, steps[..|steps| - 1]), steps[|steps| - 1]).0
  }

  /** Over every run no two Xray inbounds can clash on a port, and each has the tag of its address. */
  lemma {:induction false} RunKeepsInv(t: Table, steps: seq<Step>)
    requires Inv(t) && forall k :: 0 <= k < |steps| ==> Fresh(Run(t, steps[..k]), steps[k])
    ensures Inv(Run(t, steps))
  {
    if steps != [] {
      var front := steps[..|steps| - 1];
      forall k | 0 <= k < |front| ensures Fresh(Run(t, front[..k]), front[k]) {
        assert front[..k] == steps[..k] && front[k] == steps[k];
      }
      RunKeepsInv(t, front);
      StepKeepsInv(Run(t, front), steps[|steps| - 1]);
    }
  }

  /** Then the tags of Xray inbounds are pairwise distinct. */
  lemma TagsAreDistinct(t: Table, i: int, j: int)
    requires Inv(t) && i in t && j in t && i != j && t[i].xray && t[j].xray
    ensures t[i].tag != t[j].tag
  {
    TagsEqualIff(t[i].listen, t[i].port, t[j].listen, t[j].port);
  }

  /** An inbound that passes the port check is rejected for its tag exactly when a tunnel inbound still
      has the tag of another port: SyncPort moves the port and leaves the tag. */
  lemma FreePortRejectedIff(t: Table, id: int, listen: string, port: int)
    requires Inv(t) && id !in t && !PortExists(t, listen, port, 0)
    ensures Apply(t, AddInbound(id, listen, port)).1 == TagTaken
            <==> exists k :: k in t && !t[k].xray && t[k].tag == TagFor(listen, port)
                             && t[k].tag != TagFor(t[k].listen, t[k].port)
  {
    PortExistsIff(t, listen, port, 0);
    var tag := TagFor(listen, port);
    if TagUsed(t, tag, id) {
      var k :| k in t && k != id && t[k].tag == tag;
      TagsEqualIff(t[k].listen, t[k].port, listen, port);
      assert !Conflict(listen, port, t[k]);
      assert t[k].tag != TagFor(t[k].listen, t[k].port);
    }
  }

  class InboundTable {
    var rows: Table

    constructor ()
      ensures rows == map[]
    {
      rows := map[];
    }

    method AddInbound(id: int, listen: string, port: int) returns (answer: Answer)
      requires id !in rows
      modifies this
      ensures (rows, answer) == Apply(old(rows), Step.AddInbound(id, listen, port))
    {
      var tag := if AnyAddress(listen) then "inbound-" + IntText(port) else "inbound-" + (listen + ":" + IntText(port));
      if PortExists(rows, listen, port, 0) {
        return PortTaken;
      }
      answer := Save(id, Row(listen, port, true, tag));
    }

    method UpdateInbound(id: int, listen: string, port: int, xray: bool) returns (answer: Answer)
      modifies this
      ensures (rows, answer) == Apply(old(rows), Step.UpdateInbound(id, listen, port, xray))
    {
      if PortExists(rows, listen, port, id) {
        return PortTaken;
      }
      if id !in rows {
        return NoSuchInbound;
      }
      var inbound := rows[id].(listen := listen, port := port, xray := xray);
      if AnyAddress(listen) {
        inbound := inbound.(tag := "inbound-" + IntText(port));
      } else {
        inbound := inbound.(tag := "inbound-" + (listen + ":" + IntText(port)));
      }
      answer := Save(id, inbound);
    }

    method Save(id: int, r: Row) returns (answer: Answer)
      modifies this
      ensures (rows, answer) == Saved(old(rows), id, r)
    {
      if TagUsed(rows, r.tag, id) {
        return TagTaken;
      }
      rows := rows[id := r];
      return Done;
    }
  }
}
