/**
 How far configs converge: runs that drain what is in flight end with the current config and stay there,
 and the two ways in which a quiet agent can hold another one, a push that is lost and an answer under a flag.
 */
module OpampConvergence {
  import opened Wrappers
  import opened Protobufs
  import opened AgentSpec
  import opened OpampProtocol
  import opened OpampLimits

  // ---------- Runs that drain ----------

  /** The agent holds the config of this text, which is the current one, and nothing else is in flight to it. */
  ghost predicate Settled(w: World, text: string) {
    && w.agent.applied == Some(RemoteConfigOf(text))
    && w.entry.Some?
    && w.entry.value.customInstanceConfig == text && w.entry.value.remoteConfig == Some(RemoteConfigOf(text))
    && (forall p <- w.pushes :: p == RemoteConfigOf(text))
    && (forall r <- w.responses :: r.remoteConfig.Some? ==> r.remoteConfig.value == RemoteConfigOf(text))
  }

  /** A step of a run without edits to another text and without disconnects. */
  predicate IsQuiet(step: Step, text: string) {
    !step.Disconnect? && (step.EditConfig? ==> step.text == text)
  }

  lemma DeliverKeepsSettled(w: World, step: Step, text: string)
    requires Settled(w, text) && step.Deliver? && Enabled(w, step)
    ensures Settled(Next(w, step), text)
  {
    hide RemoteConfigOf, Conforms, IsDisplay, MergeStatus;
    var w' := Next(w, step);
    ConfigSentExactlyWhen(w.entry.value, step.message);
    assert forall r <- w'.responses :: r in w.responses || r == w'.last.reply;
  }

  lemma ArrivalKeepsSettled(w: World, step: Step, text: string)
    requires Settled(w, text) && Enabled(w, step)
    requires step.Lose? || step.Respond? || step.ReceivePush? || step.LosePush?
    ensures Settled(Next(w, step), text)
  {
    hide RemoteConfigOf, Conforms, Received, ReplyTo, Edited, PushedBy;
  }

  lemma SameEditKeepsSettled(w: World, text: string)
    requires Settled(w, text)
    ensures Settled(Next(w, EditConfig(text)), text)
  {
    assert PushedBy(w.entry.value, text).None?;
  }

  lemma StepKeepsSettled(w: World, step: Step, text: string)
    requires Settled(w, text) && Enabled(w, step) && IsQuiet(step, text)
    ensures Settled(Next(w, step), text)
  {
    hide Settled, Next;
    match step
    case Deliver(_, _, _, _) => DeliverKeepsSettled(w, step, text);
    case EditConfig(_) => SameEditKeepsSettled(w, text);
    case _ => ArrivalKeepsSettled(w, step, text);
  }

  lemma {:induction false} SettledStays(w: World, text: string, steps: seq<Step>, w': World)
    requires Settled(w, text) && Leads(w, steps, w')
    requires forall step <- steps :: IsQuiet(step, text)
    ensures Settled(w', text)
    decreases |steps|
  {
    if steps != [] {
      assert steps[0] in steps && forall step <- steps[1..] :: step in steps;
      StepKeepsSettled(w, steps[0], text);
      SettledStays(Next(w, steps[0]), text, steps[1..], w');
    }
  }

  /** What is in flight can always arrive. */
  lemma {:induction false} Drains(w: World) returns (steps: seq<Step>, w': World)
    requires Reachable(w)
    ensures Leads(w, steps, w') && Reachable(w')
    ensures w'.pushes == multiset{} && w'.responses == multiset{} && w'.entry == w.entry
    ensures w'.agent.capabilities == w.agent.capabilities
    decreases |w.pushes| + |w.responses|
  {
    if w.pushes == multiset{} && w.responses == multiset{} {
      steps, w' := [], w;
    } else {
      var step;
      if config :| config in w.pushes {
        step := ReceivePush(config);
      } else {
        assert w.pushes == multiset{};
        var reply :| reply in w.responses;
        step := Respond(reply);
      }
      ReachesNext(w, step);
      var rest;
      rest, w' := Drains(Next(w, step));
      steps := [step] + rest;
      assert steps[1..] == rest;
    }
  }

  /**
   From every reachable state with nothing in flight, one exchange with a config status is enough for the
   agent to hold the current config, and it holds it ever after, in every run without further edits and
   disconnects, however reports, responses and losses interleave.
   */
  lemma DrainedRunsConverge(w: World, first: Step, steps: seq<Step>, w': World)
    requires Reachable(w) && w.pushes == multiset{} && w.responses == multiset{}
    requires ReportsRemoteConfig in w.agent.capabilities
    requires first.Deliver? && Enabled(w, first) && first.message.remoteConfigStatus.Some?
    requires Leads(Exchange(w, first), steps, w')
    requires forall step <- steps :: !step.EditConfig? && !step.Disconnect?
    ensures w'.entry.Some? && w'.entry.value.customInstanceConfig == Met(w.entry, first.loaded).customInstanceConfig
    ensures w'.agent.applied == Some(RemoteConfigOf(w'.entry.value.customInstanceConfig))
    ensures Delivers(w'.agent.applied.value, w'.entry.value.customInstanceConfig)
  {
    ReachableInv(w);
    ExchangeConverges(w, first);
    var w1 := Exchange(w, first);
    ExchangeDrains(w, first);
    SettledStays(w1, w1.entry.value.customInstanceConfig, steps, w');
  }

  /** An exchange with nothing else in flight leaves nothing in flight. */
  lemma ExchangeDrains(w: World, step: Step)
    requires w.pushes == multiset{} && w.responses == multiset{}
    requires step.Deliver? && Enabled(w, step)
    ensures
      var w1 := Exchange(w, step);
      && w1.pushes == multiset{} && w1.responses == multiset{}
      && !w1.last.flagUnderway && w1.last.heard == w1.last.reply.remoteConfig.Some?
      && (UpToDate(w) ==> !w1.last.reply.reportFullState)
      && w1.entry.Some? && w1.entry.value.status.Some?
  {
    hide Conforms, IsDisplay, RemoteConfigOf;
    assert Next(w, step).responses == multiset{Next(w, step).last.reply};
    if UpToDate(w) {
      SentInOrder(w.agent, step.now, step.message);
    }
  }

  lemma SentInOrder(a: Reporter, now: Snapshot, m: AgentToServer)
    requires Conforms(a, now, m)
    ensures m.sequenceNum == a.nextSeq
  {
  }

  /** And the exchange after that, if nothing comes between, ends in step, with nothing in flight. */
  lemma DrainedEndsInStep(w: World, first: Step, second: Step)
    requires Reachable(w) && w.pushes == multiset{} && w.responses == multiset{}
    requires ReportsRemoteConfig in w.agent.capabilities
    requires first.Deliver? && Enabled(w, first) && first.message.remoteConfigStatus.Some?
    requires second.Deliver? && Enabled(Exchange(w, first), second)
    ensures
      var w2 := Exchange(Exchange(w, first), second);
      Told(w2) && AnsweredInStep(w2) && w2.pushes == multiset{} && w2.responses == multiset{}
  {
    hide Next, Enabled, StatusInvariant, RemoteConfigOf;
    ReachableInv(w);
    ExchangeConverges(w, first);
    ExchangeDrains(w, first);
    ExchangeConfirms(Exchange(w, first), second);
    ExchangeDrains(Exchange(w, first), second);
  }

  // ---------- What an answer tells ----------

  /**
   An answer without the flag, with none underway, carries no config if and only if the agent held the
   current custom config when it reported (and the entry had made a remote config of it).
   */
  lemma AnswerTellsApplied(w: World, step: Step)
    requires Reachable(w) && ReportsRemoteConfig in w.agent.capabilities
    requires step.Deliver? && Enabled(w, step)
    requires !FlagUnderway(w) && !Next(w, step).last.reply.reportFullState
    ensures
      var met := Met(w.entry, step.loaded);
      Next(w, step).last.reply.remoteConfig.None? <==>
      met.remoteConfig.Some? && w.agent.applied == Some(RemoteConfigOf(met.customInstanceConfig))
  {
    ReachableInv(w);
    DeliverKeepsStatus(w, step);
    var met, w' := Met(w.entry, step.loaded), Next(w, step);
    ConfigSentExactlyWhen(met, step.message);
    assert InSync(w'.entry.value.status.value, w.agent.capabilities, step.now);
    assert w'.entry.value.status.value.remoteConfigStatus == Some(step.now.remoteConfigStatus);
    assert step.now.remoteConfigStatus.lastRemoteConfigHash == ReportedHash(w.agent.applied);
    assert w.agent.applied.Some? ==> IsGenuine(w.agent.applied.value);
  }

  // ---------- A push that is lost ----------

  /** After its first config the agent reports again, and is told that it holds the current one. */
  lemma FirstConfigConfirmed(capabilities: set<Capability>, first: Snapshot) returns (w: World)
    requires first.remoteConfigStatus.lastRemoteConfigHash == Bytes("")
    ensures Reachable(w) && w.agent.capabilities == capabilities
    ensures Told(w) && AnsweredInStep(w) && w.pushes == multiset{} && w.responses == multiset{}
    ensures w.agent.applied == Some(RemoteConfigOf("")) == w.entry.value.remoteConfig
    ensures w.entry.value.customInstanceConfig == "" && UpToDate(w) && !w.agent.owesFullReport
    ensures w.entry.value.status.value.remoteConfigStatus == Some(w.agent.sent.remoteConfigStatus)
    ensures w.agent.sent.remoteConfigStatus.lastRemoteConfigHash == Sha256("")
  {
    w := FirstContact(capabilities, first);
    var now := first.(remoteConfigStatus := first.remoteConfigStatus.(lastRemoteConfigHash := Sha256("")));
    ReachableInv(w);
    var report := CanAlwaysReport(w, now, None);
    ConfigSentExactlyWhen(w.entry.value, report.message);
    ReachesNext(w, report);
    w := Next(w, report);
    assert w.responses == multiset{w.last.reply};
    ReachesNext(w, Respond(w.last.reply));
    w := Next(w, Respond(w.last.reply));
  }

  /**
   A lost push: the agent holds the empty config and has told so, then a new text is pushed and the push
   is lost. Nothing is in flight and every other condition of convergence holds, but the agent does not
   hold the new text.
   */
  lemma LostPushStaysUnapplied(capabilities: set<Capability>, first: Snapshot, text: string) returns (w: World)
    requires first.remoteConfigStatus.lastRemoteConfigHash == Bytes("") && text != ""
    ensures Reachable(w) && w.agent.capabilities == capabilities
    ensures Told(w) && AnsweredInStep(w) && w.pushes == multiset{} && w.responses == multiset{}
    ensures w.entry.value.customInstanceConfig == text
    ensures w.agent.applied != Some(RemoteConfigOf(w.entry.value.customInstanceConfig))
  {
    hide Reachable, InSync, IsDisplay;
    w := FirstConfigConfirmed(capabilities, first);
    ReachesNext(w, EditConfig(text));
    w := Next(w, EditConfig(text));
    var push := RemoteConfigOf(text);
    assert push.configHash == Sha256(text);
    assert w.pushes == multiset{push};
    ReachesNext(w, LosePush(push));
    w := Next(w, LosePush(push));
  }

  // ---------- An answer under a flag ----------

  /** The agent's stored and reported hashes are those of the configs held and applied, and no full report is owed. */
  ghost predicate CanOmit(w: World) {
    && w.entry.Some? && w.entry.value.status.Some? && w.entry.value.remoteConfig.Some?
    && w.entry.value.status.value.remoteConfigStatus.Some?
    && w.entry.value.status.value.remoteConfigStatus.value.lastRemoteConfigHash
       == Sha256(w.entry.value.customInstanceConfig)
    && w.agent.sent.remoteConfigStatus.lastRemoteConfigHash == ReportedHash(w.agent.applied)
    && !w.agent.owesFullReport
  }

  /** A report that leaves out everything is lost. */
  lemma EmptyReportLost(w: World) returns (w': World)
    requires Reachable(w) && CanOmit(w)
    ensures Reachable(w') && CanOmit(w') && w' == w.(agent := w.agent.(nextSeq := w.agent.nextSeq + 1))
  {
    var lose := Lose(w.agent.sent, EmptyReport(w.agent));
    ReachesNext(w, lose);
    w' := Next(w, lose);
  }

  /** Or it is delivered, and answered without a config. */
  lemma EmptyReportDelivered(w: World) returns (w': World)
    requires Reachable(w) && CanOmit(w) && ReportsRemoteConfig in w.agent.capabilities
    ensures Reachable(w') && CanOmit(w') && Told(w') && UpToDate(w')
    ensures w'.agent == w.agent.(nextSeq := w.agent.nextSeq + 1) && w'.pushes == w.pushes
    ensures w'.entry.value.customInstanceConfig == w'.last.text == w.entry.value.customInstanceConfig
    ensures w'.last.reply.remoteConfig.None? && w'.last.reply.reportFullState == !UpToDate(w)
    ensures w'.last.flagUnderway == FlagUnderway(w) && w'.responses == w.responses + multiset{w'.last.reply}
  {
    ReachableInv(w);
    var m := EmptyReport(w.agent);
    var deliver := Deliver(w.agent.sent, m, "", None);
    ReachesNext(w, deliver);
    ConfigSentExactlyWhen(w.entry.value, m);
    w' := Next(w, deliver);
  }

  /** A push is received, but the report of it is lost. */
  lemma AppliedUntold(capabilities: set<Capability>, first: Snapshot, text: string) returns (w: World)
    requires first.remoteConfigStatus.lastRemoteConfigHash == Bytes("") && text != ""
    ensures Reachable(w) && w.agent.capabilities == capabilities && !UpToDate(w) && !w.agent.owesFullReport
    ensures w.pushes == multiset{} && w.responses == multiset{}
    ensures w.agent.applied == Some(RemoteConfigOf(text))
    ensures w.agent.sent.remoteConfigStatus.lastRemoteConfigHash == ReportedHash(w.agent.applied)
    ensures w.entry.Some? && w.entry.value.remoteConfig == Some(RemoteConfigOf(text)) && w.entry.value.status.Some?
    ensures w.entry.value.status.value.remoteConfigStatus.Some?
    ensures w.entry.value.status.value.remoteConfigStatus.value.lastRemoteConfigHash == Sha256("")
  {
    w := FirstConfigConfirmed(capabilities, first);
    var push := RemoteConfigOf(text);
    assert push.configHash == Sha256(text);
    ReachesNext(w, EditConfig(text));
    w := Next(w, EditConfig(text));
    assert w.pushes == multiset{push};
    ReachesNext(w, ReceivePush(push));
    w := Next(w, ReceivePush(push));
    w := ReportLost(w);
  }

  /** Then the edit is reverted, and that push is lost: the agent holds a config that nobody has told the entry of. */
  lemma AppliedThenReverted(capabilities: set<Capability>, first: Snapshot, text: string) returns (w: World)
    requires first.remoteConfigStatus.lastRemoteConfigHash == Bytes("") && text != ""
    ensures Reachable(w) && w.agent.capabilities == capabilities && CanOmit(w) && !UpToDate(w)
    ensures w.pushes == multiset{} && w.responses == multiset{}
    ensures w.entry.value.customInstanceConfig == "" && w.agent.applied == Some(RemoteConfigOf(text))
  {
    w := AppliedUntold(capabilities, first, text);
    var back := RemoteConfigOf("");
    assert RemoteConfigOf(text).configHash != back.configHash;
    ReachesNext(w, EditConfig(""));
    w := Next(w, EditConfig(""));
    assert w.pushes == multiset{back};
    ReachesNext(w, LosePush(back));
    w := Next(w, LosePush(back));
  }

  lemma ReportLost(w: World) returns (w': World)
    requires Reachable(w) && !w.agent.owesFullReport && UpToDate(w)
    ensures Reachable(w') && !UpToDate(w')
    ensures w' == w.(agent := w'.agent) && w'.agent.applied == w.agent.applied
    ensures w'.agent.capabilities == w.agent.capabilities && !w'.agent.owesFullReport
    ensures w'.agent.sent.remoteConfigStatus.lastRemoteConfigHash == ReportedHash(w.agent.applied)
  {
    var status := w.agent.sent.remoteConfigStatus.(lastRemoteConfigHash := ReportedHash(w.agent.applied));
    var now := w.agent.sent.(remoteConfigStatus := status);
    var lose := Lose(now, FullReport(w.agent, now));
    ReachesNext(w, lose);
    w' := Next(w, lose);
  }

  /**
   A quiet state under each kind of flag in which the agent holds another config: its report was flagged, a
   flag was underway when it arrived, or both.
   */
  lemma AnsweredUnderFlag(capabilities: set<Capability>, first: Snapshot, text: string, flagged: bool, underway: bool)
    returns (w: World)
    requires ReportsRemoteConfig in capabilities && (flagged || underway)
    requires first.remoteConfigStatus.lastRemoteConfigHash == Bytes("") && text != ""
    ensures Reachable(w) && w.agent.capabilities == capabilities && Told(w) && w.pushes == multiset{}
    ensures w.last.reply.remoteConfig.None?
    ensures w.last.reply.reportFullState == flagged && w.last.flagUnderway == underway
    ensures w.entry.value.customInstanceConfig == w.last.text == ""
    ensures w.agent.applied == Some(RemoteConfigOf(text)) != Some(RemoteConfigOf(""))
  {
    w := AppliedThenReverted(capabilities, first, text);
    assert RemoteConfigOf(text).configHash != RemoteConfigOf("").configHash;
    w := EmptyReportDelivered(w);
    if underway {
      assert w.last.reply in w.responses;
      if flagged {
        w := EmptyReportLost(w);
      }
      w := EmptyReportDelivered(w);
    }
  }

  /**
   The exact guarantee of an answer without a config. That an agent told so, with the custom text unchanged
   since, holds the current config, in every reachable state of an agent with these capabilities, holds if
   and only if the answer had no flag and none was underway.
   */
  lemma NoConfigMeansAppliedExactlyWhen(capabilities: set<Capability>, flagged: bool, underway: bool)
    requires ReportsRemoteConfig in capabilities
    ensures
      (forall w: World |
         && Reachable(w) && w.agent.capabilities == capabilities && Told(w)
         && w.last.reply.remoteConfig.None? && w.entry.value.customInstanceConfig == w.last.text
         && w.last.reply.reportFullState == flagged && w.last.flagUnderway == underway ::
         w.agent.applied == Some(RemoteConfigOf(w.entry.value.customInstanceConfig)))
      <==> !flagged && !underway
  {
    if flagged || underway {
      var first := Snapshot(AgentDescription([], []), ComponentHealth(true, 0, ""), map[],
                            RemoteConfigStatus(Bytes(""), 0, ""), PackageStatuses(map[], ""));
      var w := AnsweredUnderFlag(capabilities, first, "a: 1", flagged, underway);
      assert w.agent.applied != Some(RemoteConfigOf(w.entry.value.customInstanceConfig));
    } else {
      forall w: World |
        && Reachable(w) && w.agent.capabilities == capabilities && Told(w)
        && w.last.reply.remoteConfig.None? && w.entry.value.customInstanceConfig == w.last.text
        && w.last.reply.reportFullState == flagged && w.last.flagUnderway == underway
        ensures w.agent.applied == Some(RemoteConfigOf(w.entry.value.customInstanceConfig))
      {
        ConvergedWhenQuiet(w);
      }
    }
  }

  /** Under a flag, and then with nothing in flight at all: the flag has arrived, and the agent owes a full report. */
  lemma FlaggedStaysUnapplied(capabilities: set<Capability>, first: Snapshot, text: string) returns (w: World)
    requires ReportsRemoteConfig in capabilities
    requires first.remoteConfigStatus.lastRemoteConfigHash == Bytes("") && text != ""
    ensures Reachable(w) && w.agent.capabilities == capabilities && Told(w) && UpToDate(w)
    ensures w.pushes == multiset{} && w.responses == multiset{}
    ensures w.last.reply.remoteConfig.None? && !w.last.flagUnderway && w.agent.owesFullReport
    ensures w.entry.value.customInstanceConfig == w.last.text
    ensures w.agent.applied != Some(RemoteConfigOf(w.entry.value.customInstanceConfig))
  {
    w := AppliedThenReverted(capabilities, first, text);
    assert RemoteConfigOf(text).configHash != RemoteConfigOf("").configHash;
    w := EmptyReportDelivered(w);
    assert w.responses == multiset{w.last.reply};
    ReachesNext(w, Respond(w.last.reply));
    w := Next(w, Respond(w.last.reply));
  }
}
