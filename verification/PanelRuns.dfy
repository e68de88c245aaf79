/**
 Whole runs of the panel. `Inv` says that the settings and the rows describe the same clients, and
 that the core holds the users a fresh configuration would give it, or a restart has been asked for.
 */
module PanelRuns {
  import opened PanelModel
  import opened PanelSteps
  import opened PanelConsistency
  import opened PanelAgreement
  import opened PanelTick

  datatype Step =
    | AddClients(id: int, clients: seq<Client>)
    | DelClient(id: int, key: string)
    | UpdateClient(id: int, clients: seq<Client>, key: string)
    | ResetClient(id: int, email: string)
    | ResetAll(id: int, byController: bool)
    | Traffic(ins: seq<InboundReport>, reports: seq<Report>, clock: Clock)
    | NewInbound(id: int, ib: Inbound, portTaken: bool)
    | DropInbound(id: int)
    | ForceRestart(clock: Clock)
    | RestartJob(clock: Clock)

  /** A step and the answers of the core to the calls it makes. */
  datatype Event = Event(step: Step, answers: Answers)

  function StateAfter(s: State, o: Outcome): State {
    match o
    case Done(r) => r
    case Rejected => s
  }

  function Apply(s: State, e: Event): State
  {
    var a := e.answers;
    match e.step
    case AddClients(id, clients) => StateAfter(s, AddInboundClient(s, id, clients, a))
    case DelClient(id, key) => StateAfter(s, DelInboundClient(s, id, key, a))
    case UpdateClient(id, clients, key) => StateAfter(s, UpdateInboundClient(s, id, clients, key, a))
    case ResetClient(id, email) => StateAfter(s, ResetClientTraffic(s, id, email, a))
    case ResetAll(id, byController) => ResetAllClientTraffics(s, id, byController)
    case Traffic(ins, reports, t) => AddTraffic(s, ins, reports, t, a)
    case NewInbound(id, ib, portTaken) =>
      if id in s.inbounds || !ib.protocol.RunsInXray() then s else StateAfter(s, AddInbound(s, id, ib, portTaken, a))
    case DropInbound(id) => StateAfter(s, DelInbound(s, id, a))
    case ForceRestart(t) => RestartXray(s, true, t, a)
    case RestartJob(t) => CheckRestartJob(s, t, a)
  }

  ghost predicate Inv(s: State) {
    Consistent(s) && (s.restart || Agrees(s))
  }

  /** What a caller can check before a step so that the step keeps the two copies consistent. */
  ghost predicate KeepsCopies(s: State, e: Event) {
    match e.step
    case DelClient(id, key) => id in s.inbounds ==> OneRowUnderKey(s.inbounds[id], key)
    case NewInbound(id, ib, _) => forall c :: c in ib.clients ==> c.email != ""
    case _ => true
  }

  /** What a caller can check so that the step leaves no user missing from the core or left in it, and
      none with another flow than a configuration gives. Disabling, deleting an inbound and a forced
      restart need nothing. */
  ghost predicate ReachesCore(s: State, e: Event)
  {
    match e.step
    case AddClients(id, clients) => id in s.inbounds ==> AddedArePlain(s.inbounds[id], clients)
    case UpdateClient(id, clients, _) =>
      id in s.inbounds && clients != [] ==> UpdatedIsPlain(s.inbounds[id], clients[0])
    case DelClient(id, key) => id in s.inbounds ==> DelReachesCore(s, id, key)
    case ResetClient(id, email) =>
      email in s.rows && s.rows[email].inboundId in s.inbounds ==> ResetReachesCore(s, id, email)
    case ResetAll(id, byController) => byController || forall d, c :: !Restored(s, id, d, c)
    case Traffic(ins, reports, t) => TickReachesCore(s, ins, reports, t)
    case NewInbound(_, ib, _) => RawIsFiltered(ib)
    case _ => true
  }

  /** The job must find a changed configuration, or have lost nothing. */
  ghost predicate JobMayForget(s: State, e: Event) {
    e.step.RestartJob? && s.restart ==>
      var before := BeforeReload(s, e.step.clock, e.answers);
      ConfigOf(before) != s.started || Agrees(before)
  }

  /** No renewal in the step panics: a panic takes the panel, and the flag with it, down. */
  predicate Completes(s: State, e: Event) {
    match e.step
    case Traffic(ins, reports, t) => !TickPanics(s, ins, reports, t)
    case ForceRestart(t) => !TickPanics(s, [], [], t)
    case RestartJob(t) => s.restart ==> !TickPanics(s, [], [], t)
    case _ => true
  }

  ghost predicate Guard(s: State, e: Event)
  {
    KeepsCopies(s, e) && Completes(s, e) && (s.restart || ReachesCore(s, e)) && JobMayForget(s, e)
  }

  /** Distinct keys and non-empty emails in the inbound meet the guard of a deletion. */
  lemma DistinctKeysSuffice(s: State, id: int, key: string)
    requires id in s.inbounds
    requires forall c :: c in s.inbounds[id].clients ==> c.email != ""
    requires forall c, d | c in s.inbounds[id].clients && d in s.inbounds[id].clients ::
               KeyOf(s.inbounds[id].protocol, c) == KeyOf(s.inbounds[id].protocol, d) ==> c == d
    ensures OneRowUnderKey(s.inbounds[id], key) && DelReachesCore(s, id, key)
  {
    var ib := s.inbounds[id];
    match LastMatch(ib.protocol, ib.clients, key)
    case NoMatch =>
    case Match(c) =>
      forall d | d in ib.clients && KeyOf(ib.protocol, d) == key ensures d == c {}
  }

  lemma StepKeepsConsistent(s: State, e: Event)
    requires Consistent(s) && KeepsCopies(s, e)
    ensures Consistent(Apply(s, e))
  {
    var a := e.answers;
    match e.step
    case AddClients(id, clients) =>
      if AddInboundClient(s, id, clients, a).Done? { AddKeepsConsistent(s, id, clients, a); }
    case DelClient(id, key) => if DelInboundClient(s, id, key, a).Done? { DelKeepsConsistentIff(s, id, key, a); }
    case UpdateClient(id, clients, key) =>
      if UpdateInboundClient(s, id, clients, key, a).Done? { UpdateKeepsConsistent(s, id, clients, key, a); }
    case ResetClient(id, email) =>
      if ResetClientTraffic(s, id, email, a).Done? { ResetKeepsConsistent(s, id, email, a); }
    case ResetAll(id, byController) => ResetAllKeepsConsistent(s, id, byController);
    case Traffic(ins, reports, t) => TickKeepsConsistent(s, ins, reports, t, a);
    case NewInbound(id, ib, portTaken) =>
      if id !in s.inbounds && ib.protocol.RunsInXray() && AddInbound(s, id, ib, portTaken, a).Done? {
        AddInboundKeepsConsistentIff(s, id, ib, portTaken, a);
      }
    case DropInbound(id) => if DelInbound(s, id, a).Done? { DelInboundKeepsConsistent(s, id, a); }
    case ForceRestart(t) => RestartKeepsConsistent(s, true, t, a);
    case RestartJob(t) => if s.restart { RestartKeepsConsistent(s.(restart := false), false, t, a); }
  }

  /** The request is carried out and not rejected. */
  predicate Accepted(s: State, e: Event) {
    var a := e.answers;
    match e.step
    case AddClients(id, clients) => AddInboundClient(s, id, clients, a).Done?
    case DelClient(id, key) => DelInboundClient(s, id, key, a).Done?
    case UpdateClient(id, clients, key) => UpdateInboundClient(s, id, clients, key, a).Done?
    case ResetClient(id, email) => ResetClientTraffic(s, id, email, a).Done?
    case NewInbound(id, ib, portTaken) =>
      id !in s.inbounds && ib.protocol.RunsInXray() && AddInbound(s, id, ib, portTaken, a).Done?
    case DropInbound(id) => DelInbound(s, id, a).Done?
    case _ => true
  }

  /** What is carried out names an inbound, a client or a row that is there. */
  lemma AcceptedIsThere(s: State, e: Event)
    requires Accepted(s, e)
    ensures e.step.AddClients? || e.step.DelClient? || e.step.UpdateClient? ==> e.step.id in s.inbounds
    ensures e.step.UpdateClient? ==> e.step.clients != []
    ensures e.step.ResetClient? ==> e.step.email in s.rows && s.rows[e.step.email].inboundId in s.inbounds
  {
    hide Apply;
  }

  /** Outside the tick and the job the guard is exact: a request that is carried out and raises no flag
      leaves the core in agreement if and only if the guard held before it, whatever the core answered. */
  lemma StepAgreesIff(s: State, e: Event)
    requires Consistent(s) && Agrees(s) && Completes(s, e) && Accepted(s, e) && !Apply(s, e).restart
    requires !e.step.Traffic? && !e.step.RestartJob?
    ensures Agrees(Apply(s, e)) <==> ReachesCore(s, e)
  {
    hide Agrees;
    hide Consistent;
    hide AddInboundClient;
    hide DelInboundClient;
    hide UpdateInboundClient;
    hide ResetClientTraffic;
    hide AddInbound;
    hide AddTraffic;
    AcceptedIsThere(s, e);
    var a := e.answers;
    match e.step
    case AddClients(id, clients) => AddAgreesIff(s, id, clients, a);
    case DelClient(id, key) => DelAgreesIff(s, id, key, a);
    case UpdateClient(id, clients, key) => UpdateAgreesIff(s, id, clients, key, a);
    case ResetClient(id, email) => ResetAgreesIff(s, id, email, a);
    case ResetAll(id, byController) => ResetAllAgreesIff(s, id);
    case NewInbound(id, ib, portTaken) => AddInboundAgreesIff(s, id, ib, portTaken, a);
    case DropInbound(id) => DelInboundAgrees(s, id, a);
    case ForceRestart(t) => ForcedRestartAgrees(s, t, a);
  }

  lemma RejectedIsNoStep(s: State, e: Event)
    requires !Accepted(s, e)
    ensures Apply(s, e) == s
  {
  }

  lemma TrafficAgrees(s: State, e: Event)
    requires Consistent(s) && Agrees(s) && e.step.Traffic? && ReachesCore(s, e)
    ensures Apply(s, e).restart || Agrees(Apply(s, e))
  {
    hide AddTraffic;
    hide TickReachesCore;
    TickAgrees(s, e.step.ins, e.step.reports, e.step.clock, e.answers);
  }

  /** A step other than the job that finds the core in agreement leaves it so, or asks for a restart. */
  lemma StepAgrees(s: State, e: Event)
    requires Consistent(s) && Agrees(s) && Completes(s, e) && ReachesCore(s, e) && !e.step.RestartJob?
    ensures Apply(s, e).restart || Agrees(Apply(s, e))
  {
    hide Apply;
    hide Agrees;
    hide Consistent;
    hide Completes;
    hide ReachesCore;
    hide Accepted;
    if e.step.Traffic? {
      TrafficAgrees(s, e);
    } else if !Accepted(s, e) {
      RejectedIsNoStep(s, e);
    } else if !Apply(s, e).restart {
      StepAgreesIff(s, e);
    }
  }

  /** No step but the job takes a raised flag down. */
  lemma FlagStays(s: State, e: Event)
    requires s.restart && !e.step.RestartJob?
    ensures Apply(s, e).restart
  {
    if e.step.Traffic? || e.step.ForceRestart? {
      hide AddInbound;
      hide DelInbound;
    } else {
      hide AddTraffic;
    }
    hide RawUsers;
  }

  lemma StepKeepsInv(s: State, e: Event)
    requires Inv(s) && Guard(s, e)
    ensures Inv(Apply(s, e))
  {
    StepKeepsConsistent(s, e);
    if e.step.RestartJob? {
      if s.restart { JobAgreesIff(s, e.step.clock, e.answers); }
    } else if s.restart {
      FlagStays(s, e);
    } else {
      StepAgrees(s, e);
    }
  }

  // ---- runs ---------------------------------------------------------------------------------------

  /** `states` is the history of `events`. */
  ghost predicate Run(states: seq<State>, events: seq<Event>) {
    && |states| == |events| + 1
    && forall i :: 0 <= i < |events| ==> states[i + 1] == Apply(states[i], events[i])
  }

  ghost predicate Guarded(states: seq<State>, events: seq<Event>)
    requires Run(states, events)
  {
    forall i :: 0 <= i < |events| ==> Guard(states[i], events[i])
  }

  /** Along every guarded run, of any length, with API calls failing at any point: the copies stay
      consistent, and the core agrees with the configuration unless a restart has been asked for. */
  lemma {:induction false} RunKeepsInv(states: seq<State>, events: seq<Event>, n: nat)
    requires Run(states, events) && Guarded(states, events) && Inv(states[0]) && n <= |events|
    ensures Inv(states[n])
  {
    hide Apply;
    hide Inv;
    hide Guard;
    if n > 0 {
      RunKeepsInv(states, events, n - 1);
      StepKeepsInv(states[n - 1], events[n - 1]);
    }
  }

  /** The consistency of the copies needs only the first half of the guard. */
  lemma {:induction false} RunKeepsConsistent(states: seq<State>, events: seq<Event>, n: nat)
    requires Run(states, events) && n <= |events| && Consistent(states[0])
    requires forall i :: 0 <= i < |events| ==> KeepsCopies(states[i], events[i])
    ensures Consistent(states[n])
  {
    hide Apply;
    hide Consistent;
    hide KeepsCopies;
    if n > 0 {
      RunKeepsConsistent(states, events, n - 1);
      StepKeepsConsistent(states[n - 1], events[n - 1]);
    }
  }
}
