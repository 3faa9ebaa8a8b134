/**
 The OpAMP exchange between one agent and its entry in the server, as a state machine: reports that
 may be lost, responses and pushed configs that overtake each other and the reports, pushes that
 are lost, config edits, and disconnects that remove the entry.

 The agent follows the status-compression rules of the OpAMP Specification (section "Agent Status
 Compression"): it numbers its reports one by one, leaves out only a field unchanged since its last
 send, and answers ReportFullState with a full report. Its capabilities are constant and its
 effective config always has a config map. It need not wait for a response before it sends again.
 */
module OpampProtocol {
  import opened Wrappers
  import opened Protobufs
  import opened AgentSpec

  /** Everything the agent could report about itself at one moment. */
  datatype Snapshot = Snapshot(
    agentDescription: AgentDescription,
    health: ComponentHealth,
    effectiveConfig: ConfigMap,
    remoteConfigStatus: RemoteConfigStatus,
    packageStatuses: PackageStatuses)

  /** The agent: `sent` is how it stood at its last send, and `applied` the last config it received. */
  datatype Reporter = Reporter(
    capabilities: set<Capability>,
    nextSeq: nat,
    sent: Snapshot,
    owesFullReport: bool,
    applied: Option<AgentRemoteConfig>)

  /**
   What happened when the entry last received a report: how the agent stood, the response, whether a
   response with the ReportFullState flag was already underway, and the custom text then.
   `heard` says that the agent has received a config since, and `pushLost` that a push has been lost since.
   */
  datatype LastReport = LastReport(
    snapshot: Snapshot,
    reply: Reply,
    flagUnderway: bool,
    text: string,
    heard: bool,
    pushLost: bool)

  /** Both ends, what is in flight from the server to the agent, and the last report received. */
  datatype World = World(
    agent: Reporter,
    entry: Option<AgentState>,
    pushes: multiset<AgentRemoteConfig>,
    responses: multiset<Reply>,
    last: LastReport)

  /** A response with the ReportFullState flag is in flight. */
  predicate FlagUnderway(w: World) {
    exists r <- w.responses :: r.reportFullState
  }

  // ---------- The agent's side ----------

  /** The hash an agent reports: that of the last config it received, or no bytes. */
  function ReportedHash(applied: Option<AgentRemoteConfig>): Digest {
    if applied.Some? then applied.value.configHash else Bytes("")
  }

  /** A field of a report carries the present value, or is left out where the rules allow it. */
  predicate Carries<T(==)>(field: Option<T>, now: T, sent: T, full: bool, reported: bool) {
    match field
    case Some(v) => v == now
    case None => !reported || (!full && now == sent)
  }

  /** A report the agent may send when it stands as `now`. */
  ghost predicate Conforms(a: Reporter, now: Snapshot, m: AgentToServer) {
    && m.sequenceNum == a.nextSeq
    && m.capabilities == a.capabilities
    && (ReportsRemoteConfig in a.capabilities ==>
          now.remoteConfigStatus.lastRemoteConfigHash == ReportedHash(a.applied))
    && Carries(m.agentDescription, now.agentDescription, a.sent.agentDescription, a.owesFullReport, true)
    && Carries(m.health, now.health, a.sent.health, a.owesFullReport, ReportsHealth in a.capabilities)
    && Carries(m.remoteConfigStatus, now.remoteConfigStatus, a.sent.remoteConfigStatus, a.owesFullReport,
               ReportsRemoteConfig in a.capabilities)
    && Carries(m.effectiveConfig, EffectiveConfig(Some(now.effectiveConfig)),
               EffectiveConfig(Some(a.sent.effectiveConfig)), a.owesFullReport,
                   ReportsEffectiveConfig in a.capabilities)
    && Carries(m.packageStatuses, now.packageStatuses, a.sent.packageStatuses, a.owesFullReport,
               ReportsPackageStatuses in a.capabilities)
  }

  function Receives(a: Reporter, config: AgentRemoteConfig): Reporter {
    a.(applied := Some(config))
  }

  function Sends(a: Reporter, now: Snapshot): Reporter {
    a.(nextSeq := a.nextSeq + 1, sent := now, owesFullReport := false)
  }

  // ---------- Steps ----------

  datatype Step =
    | Lose(now: Snapshot, message: AgentToServer)
    | Deliver(now: Snapshot, message: AgentToServer, display: string, loaded: Option<string>)
    | Respond(reply: Reply)
    | ReceivePush(config: AgentRemoteConfig)
    | LosePush(config: AgentRemoteConfig)
    | EditConfig(text: string)
    | Disconnect(keptPushes: multiset<AgentRemoteConfig>, keptResponses: multiset<Reply>)

  ghost predicate Enabled(w: World, step: Step) {
    match step
    case Lose(now, m) => Conforms(w.agent, now, m)
    case Deliver(now, m, display, loaded) =>
      && Conforms(w.agent, now, m)
      && IsEvent(Report(m, display))
      && (w.entry.Some? ==> Agrees(w.entry.value))
    case Respond(reply) => reply in w.responses
    case ReceivePush(config) => config in w.pushes
    case LosePush(config) => config in w.pushes
    case EditConfig(_) => w.entry.Some?
    case Disconnect(keptPushes, keptResponses) => keptPushes <= w.pushes && keptResponses <= w.responses
  }

  /** The entry a report meets: a removed one is created anew, with its saved config if it has one. */
  function Met(entry: Option<AgentState>, loaded: Option<string>): AgentState {
    entry.GetOr(NewEntry(loaded))
  }

  ghost function Next(w: World, step: Step): World
    requires Enabled(w, step)
  {
    match step
    case Lose(now, m) => w.(agent := Sends(w.agent, now))
    case Deliver(now, m, display, loaded) =>
      var met := Met(w.entry, loaded);
      var reply := ReplyTo(met, m);
      w.(agent := Sends(w.agent, now),
         entry := Some(Received(met, m, display)),
         responses := w.responses + multiset{reply},
         last := LastReport(now, reply, FlagUnderway(w), met.customInstanceConfig, false, false))
    case Respond(reply) =>
      var a := w.agent.(owesFullReport := w.agent.owesFullReport || reply.reportFullState);
      w.(responses := w.responses - multiset{reply},
         agent := if reply.remoteConfig.Some? then Receives(a, reply.remoteConfig.value) else a,
         last := w.last.(heard := w.last.heard || reply.remoteConfig.Some?))
    case ReceivePush(config) =>
      w.(pushes := w.pushes - multiset{config}, agent := Receives(w.agent, config), last := w.last.(heard := true))
    case LosePush(config) =>
      w.(pushes := w.pushes - multiset{config}, last := w.last.(pushLost := true))
    case EditConfig(text) =>
      var pushed := PushedBy(w.entry.value, text);
      w.(entry := Some(Edited(w.entry.value, text)),
         pushes := if pushed.Some? then w.pushes + multiset{pushed.value} else w.pushes)
    case Disconnect(keptPushes, keptResponses) =>
      w.(entry := None, pushes := keptPushes, responses := keptResponses)
  }

  /** An agent that has sent nothing, and a server that has no entry for it; it owes a full report. */
  ghost predicate Init(w: World) {
    && w.agent.owesFullReport
    && w.agent.applied.None?
    && w.entry.None?
    && w.pushes == multiset{}
    && w.responses == multiset{}
  }

  /** `steps` leads from `w` to `w'`. */
  ghost predicate Leads(w: World, steps: seq<Step>, w': World)
    decreases |steps|
  {
    if steps == [] then w == w'
    else Enabled(w, steps[0]) && Leads(Next(w, steps[0]), steps[1..], w')
  }

  ghost predicate Reachable(w: World) {
    exists start: World, steps: seq<Step> :: Init(start) && Leads(start, steps, w)
  }

  // ---------- What every reachable state keeps ----------

  /** The stored status equals the snapshot in every field that these capabilities make the agent report. */
  predicate InSync(status: AgentToServer, capabilities: set<Capability>, snapshot: Snapshot) {
    && (ReportsHealth in capabilities ==> status.health == Some(snapshot.health))
    && (ReportsRemoteConfig in capabilities ==> status.remoteConfigStatus == Some(snapshot.remoteConfigStatus))
    && (ReportsEffectiveConfig in capabilities ==> ReportedMap(status) == Some(snapshot.effectiveConfig))
  }

  /** The entry received the agent's latest report. */
  predicate UpToDate(w: World) {
    && w.entry.Some?
    && w.entry.value.status.Some?
    && w.entry.value.status.value.sequenceNum + 1 == w.agent.nextSeq
  }

  ghost predicate IsGenuine(config: AgentRemoteConfig) {
    config.configHash.Sha256? && config == RemoteConfigOf(config.configHash.input)
  }

  /** Every config in flight or applied was made by the server. */
  ghost predicate ConfigsGenuine(w: World) {
    && (forall c <- w.pushes :: IsGenuine(c))
    && (forall r <- w.responses :: r.remoteConfig.Some? ==> IsGenuine(r.remoteConfig.value))
    && (w.agent.applied.Some? ==> IsGenuine(w.agent.applied.value))
  }

  /** The server has told the agent, or is telling it, that it needs a full report. */
  predicate FullReportDue(w: World) {
    w.agent.owesFullReport || FlagUnderway(w)
  }

  ghost predicate StatusInvariant(w: World) {
    w.entry.Some? ==>
      && Agrees(w.entry.value)
      && DisplayAgrees(w.entry.value)
      && (w.entry.value.status.Some? ==>
            var status := w.entry.value.status.value;
            && status.capabilities == w.agent.capabilities
            && status.sequenceNum < w.agent.nextSeq
            && (!w.last.reply.reportFullState && !w.last.flagUnderway ==>
                  InSync(status, w.agent.capabilities, w.last.snapshot))
            && (UpToDate(w) ==>
                  && w.last.snapshot == w.agent.sent
                  && (InSync(status, w.agent.capabilities, w.agent.sent) || FullReportDue(w))))
  }

  /** The last report was answered as one that needs neither full state nor another config, with no flag underway. */
  predicate AnsweredInStep(w: World) {
    !w.last.reply.reportFullState && !w.last.flagUnderway && w.last.reply.remoteConfig.None?
  }

  /** The entry received a report, and the agent has received no config since it sent that. */
  predicate Told(w: World) {
    w.entry.Some? && w.entry.value.status.Some? && !w.last.heard
  }

  /** The agent stands with the config of its last report, and the custom text is still that one unless pushed on. */
  ghost predicate ConfigInvariant(w: World) {
    && ConfigsGenuine(w)
    && (Told(w) && AnsweredInStep(w) && ReportsRemoteConfig in w.agent.capabilities ==>
          w.agent.applied == Some(RemoteConfigOf(w.last.text)))
    && (Told(w) && !w.last.pushLost ==>
          w.pushes != multiset{} || w.entry.value.customInstanceConfig == w.last.text)
  }

  ghost predicate Inv(w: World) {
    StatusInvariant(w) && ConfigInvariant(w)
  }

  /**
   A report keeps the status in step with the agent unless full state is asked for, by its response or an
   earlier one.
   */
  lemma DeliverKeepsStatus(w: World, step: Step)
    requires StatusInvariant(w) && step.Deliver? && Enabled(w, step)
    ensures StatusInvariant(Next(w, step))
  {
    var met := Met(w.entry, step.loaded);
    var w' := Next(w, step);
    assert Agrees(met) && DisplayAgrees(met);
    assert IsEvent(Report(step.message, step.display));
    assert w'.last.reply in w'.responses;
    if FlagUnderway(w) {
      var r :| r in w.responses && r.reportFullState;
      assert r in w'.responses;
    }
    if !LostPrevious(met, step.message) {
      assert UpToDate(w);
    }
  }

  lemma RespondKeepsStatus(w: World, reply: Reply)
    requires StatusInvariant(w) && reply in w.responses
    ensures StatusInvariant(Next(w, Respond(reply)))
  {
    var w' := Next(w, Respond(reply));
    if FlagUnderway(w) && !reply.reportFullState {
      var r :| r in w.responses && r.reportFullState;
      assert r in w'.responses;
    }
  }

  lemma StepKeepsStatus(w: World, step: Step)
    requires StatusInvariant(w) && Enabled(w, step)
    ensures StatusInvariant(Next(w, step))
  {
    match step
    case Deliver(_, _, _, _) => DeliverKeepsStatus(w, step);
    case Respond(reply) => RespondKeepsStatus(w, reply);
    case Lose(_, _) => assert !UpToDate(Next(w, step));
    case EditConfig(_) => assert FlagUnderway(Next(w, step)) == FlagUnderway(w);
    case ReceivePush(_) => assert FlagUnderway(Next(w, step)) == FlagUnderway(w);
    case LosePush(_) => assert FlagUnderway(Next(w, step)) == FlagUnderway(w);
    case Disconnect(_, _) =>
  }

  /** When a report is answered in step, the agent has the config held for it. */
  lemma DeliverKeepsConfig(w: World, step: Step)
    requires StatusInvariant(w) && ConfigsGenuine(w) && step.Deliver? && Enabled(w, step)
    ensures ConfigInvariant(Next(w, step))
  {
    var w' := Next(w, step);
    DeliverKeepsStatus(w, step);
    ConfigSentExactlyWhen(Met(w.entry, step.loaded), step.message);
    forall r <- w'.responses | r.remoteConfig.Some?
      ensures IsGenuine(r.remoteConfig.value)
    {
      assert r in w.responses || r == w'.last.reply;
    }
    if ReportsRemoteConfig in w.agent.capabilities && AnsweredInStep(w') {
      assert w'.entry.value.status.value.remoteConfigStatus == Some(step.now.remoteConfigStatus);
      assert ReportedHash(w.agent.applied) == Sha256(w'.last.text);
      assert w.agent.applied.Some? && IsGenuine(w.agent.applied.value);
    }
  }

  lemma EditKeepsConfig(w: World, text: string)
    requires Inv(w) && w.entry.Some?
    ensures ConfigInvariant(Next(w, EditConfig(text)))
  {
    var w' := Next(w, EditConfig(text));
    assert IsGenuine(RemoteConfigOf(text));
    if PushedBy(w.entry.value, text).Some? {
      assert RemoteConfigOf(text) in w'.pushes;
    } else {
      assert RemoteConfigOf(text).configHash == RemoteConfigOf(w.entry.value.customInstanceConfig).configHash;
    }
  }

  lemma ReceiptKeepsConfig(w: World, step: Step)
    requires ConfigInvariant(w) && Enabled(w, step)
    requires step.Respond? || step.ReceivePush? || step.LosePush?
    ensures ConfigInvariant(Next(w, step))
  {
    hide IsGenuine, RemoteConfigOf, Conforms, Received, ReplyTo, Edited, PushedBy;
    var w' := Next(w, step);
    assert !w'.last.heard ==> w'.agent.applied == w.agent.applied;
  }

  lemma StepKeepsConfig(w: World, step: Step)
    requires Inv(w) && Enabled(w, step)
    ensures ConfigInvariant(Next(w, step))
  {
    match step
    case Deliver(_, _, _, _) => DeliverKeepsConfig(w, step);
    case EditConfig(text) => EditKeepsConfig(w, text);
    case Lose(_, _) =>
    case Disconnect(_, _) =>
    case _ => ReceiptKeepsConfig(w, step);
  }

  lemma {:induction false} RunKeepsInv(w: World, steps: seq<Step>, w': World)
    requires Inv(w) && Leads(w, steps, w')
    ensures Inv(w')
    decreases |steps|
  {
    if steps != [] {
      StepKeepsStatus(w, steps[0]);
      StepKeepsConfig(w, steps[0]);
      RunKeepsInv(Next(w, steps[0]), steps[1..], w');
    }
  }

  lemma ReachableInv(w: World)
    requires Reachable(w)
    ensures Inv(w)
  {
    var start, steps :| Init(start) && Leads(start, steps, w);
    RunKeepsInv(start, steps, w);
  }

  // ---------- Main results ----------

  /** In every reachable state all that is in flight to the agent, held for it or applied by it is one text's config. */
  lemma OnlyConfigsOfTexts(w: World, c: AgentRemoteConfig)
    requires Reachable(w)
    requires
      || c in w.pushes
      || (exists r <- w.responses :: r.remoteConfig == Some(c))
      || w.agent.applied == Some(c)
      || (w.entry.Some? && w.entry.value.remoteConfig == Some(c))
    ensures c.configHash.Sha256? && Delivers(c, c.configHash.input)
    ensures w.entry.Some? && w.entry.value.remoteConfig == Some(c) ==>
              Delivers(c, w.entry.value.customInstanceConfig)
  {
    ReachableInv(w);
    if w.entry.Some? && w.entry.value.remoteConfig == Some(c) {
      assert IsGenuine(RemoteConfigOf(w.entry.value.customInstanceConfig));
    }
    assert IsGenuine(c);
    DeliversExactlyWhen(c, c.configHash.input);
  }

  /**
   Status reconstruction under loss and reordering. In every reachable state, if the last report received
   was answered without the ReportFullState flag and no flag was underway then, the stored health, config
   status and effective config (of the reported capabilities) are those the agent had at that report.
   When that was the agent's latest report and no full report is due, they are those of its last
   send. What is shown is those config files one after another.
   */
  lemma StatusReconstruction(w: World)
    requires Reachable(w)
    requires w.entry.Some? && w.entry.value.status.Some?
    ensures
      var status := w.entry.value.status.value;
      var answered := !w.last.reply.reportFullState && !w.last.flagUnderway;
      && (answered ==> InSync(status, w.agent.capabilities, w.last.snapshot))
      && (UpToDate(w) && (answered || !FullReportDue(w)) ==> InSync(status, w.agent.capabilities, w.agent.sent))
      && (answered && ReportsEffectiveConfig in w.agent.capabilities ==>
            IsDisplay(w.entry.value.effectiveConfig, w.last.snapshot.effectiveConfig))
  {
    ReachableInv(w);
  }

  /**
   Recovery: once a ReportFullState flag has reached the agent, the next of its reports to be
   delivered, if none is lost before it, is not flagged again and brings the entry in step.
   */
  lemma FullReportRecovers(w: World, step: Step)
    requires Reachable(w) && w.agent.owesFullReport
    requires step.Deliver? && Enabled(w, step)
    ensures !Next(w, step).last.reply.reportFullState
    ensures InSync(Next(w, step).entry.value.status.value, w.agent.capabilities, step.now)
  {
    ReachableInv(w);
    DeliverKeepsStatus(w, step);
  }

  /**
   Remote-config convergence. In every reachable state in which the last report received was answered in
   step, and the agent has received no config since it sent that report, the config it last received is the
   current custom config if and only if the custom text is still the one it was at that report. With no push
   in flight that is so unless a push was lost since. Reports lost since do not matter.
   */
  lemma ConvergedWhenQuiet(w: World)
    requires Reachable(w)
    requires Told(w) && AnsweredInStep(w) && ReportsRemoteConfig in w.agent.capabilities
    ensures w.agent.applied == Some(RemoteConfigOf(w.entry.value.customInstanceConfig)) <==>
            w.entry.value.customInstanceConfig == w.last.text
    ensures w.pushes == multiset{} && !w.last.pushLost ==>
              && w.agent.applied == Some(RemoteConfigOf(w.entry.value.customInstanceConfig))
              && Delivers(w.agent.applied.value, w.entry.value.customInstanceConfig)
  {
    ReachableInv(w);
    assert RemoteConfigOf(w.last.text).configHash == Sha256(w.last.text);
  }

  /** A report that is delivered, and its response. */
  ghost function Exchange(w: World, step: Step): World
    requires step.Deliver? && Enabled(w, step)
  {
    var w' := Next(w, step);
    assert w'.last.reply in w'.responses;
    Next(w', Respond(w'.last.reply))
  }

  /**
   After a report with its config status has been answered, the agent holds the current custom config,
   whatever was lost or is in flight.
   */
  lemma ExchangeConverges(w: World, step: Step)
    requires StatusInvariant(w) && ConfigsGenuine(w) && ReportsRemoteConfig in w.agent.capabilities
    requires step.Deliver? && Enabled(w, step) && step.message.remoteConfigStatus.Some?
    ensures
      var w1 := Exchange(w, step);
      && StatusInvariant(w1) && UpToDate(w1)
      && w1.agent.applied == Some(RemoteConfigOf(w1.entry.value.customInstanceConfig))
      && Delivers(w1.agent.applied.value, w1.entry.value.customInstanceConfig)
      && w1.entry.value.customInstanceConfig == Met(w.entry, step.loaded).customInstanceConfig
      && w1.entry.value.status.value.remoteConfigStatus == Some(w1.agent.sent.remoteConfigStatus)
      && w1.agent.capabilities == w.agent.capabilities
  {
    hide Delivers;
    var w' := Next(w, step);
    DeliversExactlyWhen(RemoteConfigOf(w'.entry.value.customInstanceConfig), w'.entry.value.customInstanceConfig);
    DeliverKeepsStatus(w, step);
    assert w'.last.reply in w'.responses;
    RespondKeepsStatus(w', w'.last.reply);
    ConfigSentExactlyWhen(Met(w.entry, step.loaded), step.message);
    assert w'.entry.value.status.value.remoteConfigStatus == Some(step.now.remoteConfigStatus);
    if w'.last.reply.remoteConfig.None? {
      assert w.agent.applied.Some? && IsGenuine(w.agent.applied.value);
    }
  }

  /** An agent that holds the current custom config is sent no config for its next report. */
  lemma ExchangeConfirms(w: World, step: Step)
    requires StatusInvariant(w) && UpToDate(w) && ReportsRemoteConfig in w.agent.capabilities
    requires w.agent.applied == Some(RemoteConfigOf(w.entry.value.customInstanceConfig))
    requires w.entry.value.status.value.remoteConfigStatus == Some(w.agent.sent.remoteConfigStatus)
    requires step.Deliver? && Enabled(w, step)
    ensures
      var w1 := Exchange(w, step);
      && w1.last.reply.remoteConfig.None?
      && w1.agent.applied == w.agent.applied
      && w1.entry.value.customInstanceConfig == w.entry.value.customInstanceConfig
  {
    ConfigSentExactlyWhen(w.entry.value, step.message);
    assert MergeStatus(w.entry.value.status, step.message).remoteConfigStatus == Some(step.now.remoteConfigStatus);
  }

  /**
   From any reachable state, whatever pushes were lost, one report that includes the config status is
   enough for the agent to hold the current custom config, and the response to the next report
   confirms it by carrying no config, whatever else these two reports contain, if nothing else reaches
   the agent between them.
   */
  lemma ConvergesInTwoExchanges(w: World, first: Step, second: Step)
    requires Reachable(w) && ReportsRemoteConfig in w.agent.capabilities
    requires first.Deliver? && Enabled(w, first) && first.message.remoteConfigStatus.Some?
    requires second.Deliver? && Enabled(Exchange(w, first), second)
    ensures
      var w1, w2 := Exchange(w, first), Exchange(Exchange(w, first), second);
      && w1.agent.applied == Some(RemoteConfigOf(w1.entry.value.customInstanceConfig))
      && w2.last.reply.remoteConfig.None?
      && w2.agent.applied == Some(RemoteConfigOf(w2.entry.value.customInstanceConfig))
      && w2.entry.value.customInstanceConfig == Met(w.entry, first.loaded).customInstanceConfig
  {
    ReachableInv(w);
    ExchangeConverges(w, first);
    ExchangeConfirms(Exchange(w, first), second);
  }

  /** An agent can always report in full, so no run gets stuck. */
  lemma CanAlwaysReport(w: World, now: Snapshot, loaded: Option<string>) returns (step: Step)
    requires Reachable(w)
    requires ReportsRemoteConfig in w.agent.capabilities ==>
               now.remoteConfigStatus.lastRemoteConfigHash == ReportedHash(w.agent.applied)
    ensures step.Deliver? && step.now == now && step.loaded == loaded
    ensures Enabled(w, step) && step.message == FullReport(w.agent, now)
  {
    ReachableInv(w);
    var display := DisplayExists(now.effectiveConfig);
    step := Deliver(now, FullReport(w.agent, now), display, loaded);
  }

  /** The report that carries everything. */
  function FullReport(a: Reporter, now: Snapshot): AgentToServer {
    AgentToServer(a.nextSeq, a.capabilities, Some(now.agentDescription), Some(now.health),
                  Some(EffectiveConfig(Some(now.effectiveConfig))), Some(now.remoteConfigStatus),
                  Some(now.packageStatuses))
  }

  lemma {:induction false} LeadsOneFurther(w: World, steps: seq<Step>, w': World, step: Step)
    requires Leads(w, steps, w') && Enabled(w', step)
    ensures Leads(w, steps + [step], Next(w', step))
    decreases |steps|
  {
    if steps == [] {
      assert [step][1..] == [];
    } else {
      LeadsOneFurther(Next(w, steps[0]), steps[1..], w', step);
      assert (steps + [step])[1..] == steps[1..] + [step];
    }
  }

  lemma ReachesNext(w: World, step: Step)
    requires Reachable(w) && Enabled(w, step)
    ensures Reachable(Next(w, step))
  {
    var start, steps :| Init(start) && Leads(start, steps, w);
    LeadsOneFurther(start, steps, w, step);
  }
}
