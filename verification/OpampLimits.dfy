/**
 Where reconstruction stops: a report that overtakes the flag it should answer, the agent description,
 which the server's test for a compressed report does not look at, and package statuses, which the server
 never stores after the first report.
 */
module OpampLimits {
  import opened Wrappers
  import opened Protobufs
  import opened AgentSpec
  import opened OpampProtocol

  // ---------- Runs that fail ----------

  /** First contact: the agent reports in full and receives the empty config. */
  lemma FirstContact(capabilities: set<Capability>, first: Snapshot) returns (w: World)
    requires first.remoteConfigStatus.lastRemoteConfigHash == Bytes("")
    ensures Reachable(w) && UpToDate(w) && w.agent.capabilities == capabilities
    ensures w.responses == multiset{} && w.pushes == multiset{} && !w.agent.owesFullReport
    ensures w.agent.applied == Some(RemoteConfigOf("")) == w.entry.value.remoteConfig
    ensures w.entry.value.status.value.agentDescription == Some(first.agentDescription)
    ensures InSync(w.entry.value.status.value, capabilities, first) && w.agent.sent == first
  {
    var agent := Reporter(capabilities, 1, first, true, None);
    var w0 := World(agent, None, multiset{}, multiset{}, LastReport(first, EMPTY_REPLY, false, "", false, false));
    assert Init(w0) && Leads(w0, [], w0);
    var deliver := CanAlwaysReport(w0, first, None);
    ReachesNext(w0, deliver);
    ConfigSentExactlyWhen(NEW_AGENT, deliver.message);
    w := Next(w0, deliver);
    assert w.responses == multiset{w.last.reply};
    ReachesNext(w, Respond(w.last.reply));
    w := Next(w, Respond(w.last.reply));
  }

  /** The report that leaves out every field. */
  function EmptyReport(a: Reporter): AgentToServer {
    AgentToServer(a.nextSeq, a.capabilities, None, None, None, None, None)
  }

  predicate ReportsTestedField(capabilities: set<Capability>) {
    ReportsHealth in capabilities || ReportsRemoteConfig in capabilities || ReportsEffectiveConfig in capabilities
  }

  /** A full report is lost, and the next one leaves out everything: it is flagged, and changes no field. */
  lemma FlagAfterLoss(w: World, now: Snapshot, before: Snapshot) returns (w': World)
    requires Reachable(w) && UpToDate(w) && !w.agent.owesFullReport
    requires ReportsTestedField(w.agent.capabilities)
    requires InSync(w.entry.value.status.value, w.agent.capabilities, before)
    requires now.remoteConfigStatus.lastRemoteConfigHash == ReportedHash(w.agent.applied)
    ensures Reachable(w') && UpToDate(w') && w'.agent == w.agent.(nextSeq := w'.agent.nextSeq, sent := now)
    ensures FlagUnderway(w')
    ensures InSync(w'.entry.value.status.value, w.agent.capabilities, before)
  {
    ReachableInv(w);
    var lose := Lose(now, FullReport(w.agent, now));
    ReachesNext(w, lose);
    w' := Next(w, lose);
    var flagged := Deliver(now, EmptyReport(w'.agent), "", None);
    ReachesNext(w', flagged);
    w' := Next(w', flagged);
    assert w'.last.reply.reportFullState && w'.last.reply in w'.responses;
  }

  /**
   A flag that comes too late: a full report is lost, the next one leaves out everything and is answered
   with the flag, but before that arrives the agent has sent one more. That one is not flagged, although
   every field the entry holds is still the one from before the loss.
   */
  lemma FlagOvertaken(capabilities: set<Capability>, first: Snapshot, now: Snapshot) returns (w: World)
    requires ReportsTestedField(capabilities)
    requires first.remoteConfigStatus.lastRemoteConfigHash == Bytes("")
    requires now.remoteConfigStatus.lastRemoteConfigHash == Sha256("")
    ensures Reachable(w) && UpToDate(w) && w.agent.capabilities == capabilities
    ensures w.last.snapshot == w.agent.sent == now
    ensures !w.last.reply.reportFullState && w.last.flagUnderway && FlagUnderway(w) && !w.agent.owesFullReport
    ensures InSync(w.entry.value.status.value, capabilities, first)
  {
    w := FirstContact(capabilities, first);
    w := FlagAfterLoss(w, now, first);
    ReachableInv(w);
    var overtakes := Deliver(now, EmptyReport(w.agent), "", None);
    ReachesNext(w, overtakes);
    var underway :| underway in w.responses && underway.reportFullState;
    w := Next(w, overtakes);
    assert underway in w.responses;
  }

  /**
   The exact guarantee of an answer without the flag. That it leaves the entry in step, in every reachable
   state of an agent with these capabilities, holds if and only if no flag was underway when the report
   arrived (or the agent reports none of the tested fields).
   */
  lemma UnflaggedMeansInStepExactlyWhen(capabilities: set<Capability>, flagUnderway: bool)
    ensures
      (forall w: World |
         && Reachable(w) && w.agent.capabilities == capabilities
         && w.entry.Some? && w.entry.value.status.Some?
         && !w.last.reply.reportFullState && w.last.flagUnderway == flagUnderway ::
         InSync(w.entry.value.status.value, capabilities, w.last.snapshot))
      <==> !flagUnderway || !ReportsTestedField(capabilities)
  {
    if !flagUnderway || !ReportsTestedField(capabilities) {
      forall w: World |
        && Reachable(w) && w.agent.capabilities == capabilities
        && w.entry.Some? && w.entry.value.status.Some?
        && !w.last.reply.reportFullState && w.last.flagUnderway == flagUnderway
        ensures InSync(w.entry.value.status.value, capabilities, w.last.snapshot)
      {
        StatusReconstruction(w);
      }
    } else {
      var w := StaleWorld(capabilities);
      assert !InSync(w.entry.value.status.value, capabilities, w.last.snapshot);
    }
  }

  /**
   The exact guarantee of an up-to-date entry. That it is in step with the agent's last send, in every
   reachable state of an agent with these capabilities in which full reports are due or not as given, holds
   if and only if none is due: no flag is underway and the agent does not owe one.
   */
  lemma UpToDateMeansInStepExactlyWhen(capabilities: set<Capability>, due: bool)
    ensures
      (forall w: World |
         Reachable(w) && w.agent.capabilities == capabilities && UpToDate(w) && FullReportDue(w) == due ::
         InSync(w.entry.value.status.value, capabilities, w.agent.sent))
      <==> !due || !ReportsTestedField(capabilities)
  {
    if !due || !ReportsTestedField(capabilities) {
      forall w: World |
        Reachable(w) && w.agent.capabilities == capabilities && UpToDate(w) && FullReportDue(w) == due
        ensures InSync(w.entry.value.status.value, capabilities, w.agent.sent)
      {
        StatusReconstruction(w);
      }
    } else {
      var w := StaleWorld(capabilities);
      assert !InSync(w.entry.value.status.value, capabilities, w.agent.sent);
    }
  }

  /** Such a run in which every tested field has changed. */
  lemma StaleWorld(capabilities: set<Capability>) returns (w: World)
    requires ReportsTestedField(capabilities)
    ensures Reachable(w) && UpToDate(w) && w.agent.capabilities == capabilities && w.last.snapshot == w.agent.sent
    ensures !w.last.reply.reportFullState && w.last.flagUnderway && FullReportDue(w)
    ensures !InSync(w.entry.value.status.value, capabilities, w.agent.sent)
  {
    var first := Snapshot(AgentDescription([], []), ComponentHealth(true, 0, ""), map[],
                          RemoteConfigStatus(Bytes(""), 0, ""), PackageStatuses(map[], ""));
    var now := first.(health := ComponentHealth(false, 0, ""),
                      effectiveConfig := map["" := AgentConfigFile("", "")],
                      remoteConfigStatus := RemoteConfigStatus(Sha256(""), 0, ""));
    w := FlagOvertaken(capabilities, first, now);
    assert "" in now.effectiveConfig && "" !in first.effectiveConfig;
  }

  // ---------- The agent description ----------

  /**
   A report after a loss that carries every field the server tests, but no description. The server
   then sees nothing missing and asks for nothing.
   */
  predicate HidesDescription(met: AgentState, m: AgentToServer) {
    && LostPrevious(met, m)
    && !IsCompressed(MergeStatus(met.status, m).capabilities, m)
    && m.agentDescription.None?
  }

  /**
   The entry received the latest report and no full report is due, so the stored description should be the
   agent's.
   */
  ghost predicate DescriptionInStep(w: World) {
    UpToDate(w) && !FullReportDue(w) ==>
      w.entry.value.status.value.agentDescription == Some(w.agent.sent.agentDescription)
  }

  /**
   While descriptions are in step, a report keeps them so exactly when it does not hide its
   description, or the hidden one happens to be the one stored, or a flag is underway already.
   */
  lemma DescriptionKeptExactlyWhen(w: World, step: Step)
    requires Reachable(w) && DescriptionInStep(w)
    requires step.Deliver? && Enabled(w, step)
    ensures
      var met := Met(w.entry, step.loaded);
      DescriptionInStep(Next(w, step)) <==>
        || !HidesDescription(met, step.message)
        || (met.status.Some? && met.status.value.agentDescription == Some(step.now.agentDescription))
        || FlagUnderway(w)
  {
    hide Reachable, InSync, IsDisplay, DisplayAgrees;
    ReachableInv(w);
    var met, w' := Met(w.entry, step.loaded), Next(w, step);
    if FlagUnderway(w) {
      var r :| r in w.responses && r.reportFullState;
      assert r in w'.responses;
    } else {
      assert forall r <- w'.responses :: r in w.responses || r == w'.last.reply;
      assert w'.last.reply in w'.responses;
    }
    if !LostPrevious(met, step.message) {
      assert UpToDate(w);
    }
  }

  /** No other step puts descriptions out of step. */
  lemma OthersKeepDescription(w: World, step: Step)
    requires Reachable(w) && DescriptionInStep(w)
    requires !step.Deliver? && Enabled(w, step)
    ensures DescriptionInStep(Next(w, step))
  {
    ReachableInv(w);
    var w' := Next(w, step);
    if step.Lose? {
      assert !UpToDate(w');
    } else if FlagUnderway(w) && UpToDate(w') {
      var r :| r in w.responses && r.reportFullState;
      assert step != Respond(r) ==> r in w'.responses;
    }
  }

  /** No report delivered on the way hides its description. */
  ghost predicate HidesNone(w: World, steps: seq<Step>, w': World)
    requires Leads(w, steps, w')
    decreases |steps|
  {
    steps == [] ||
    (&& (steps[0].Deliver? ==> !HidesDescription(Met(w.entry, steps[0].loaded), steps[0].message))
     && HidesNone(Next(w, steps[0]), steps[1..], w'))
  }

  /**
   In every run in which no delivered report hides its description, descriptions are reconstructed like
   the other fields.
   */
  lemma {:induction false} DescriptionReconstruction(w: World, steps: seq<Step>, w': World)
    requires Reachable(w) && DescriptionInStep(w)
    requires Leads(w, steps, w') && HidesNone(w, steps, w')
    ensures DescriptionInStep(w')
    decreases |steps|
  {
    if steps != [] {
      ReachesNext(w, steps[0]);
      if steps[0].Deliver? {
        DescriptionKeptExactlyWhen(w, steps[0]);
      } else {
        OthersKeepDescription(w, steps[0]);
      }
      DescriptionReconstruction(Next(w, steps[0]), steps[1..], w');
    }
  }

  /** A full report is lost, and the next one carries everything but the description. */
  lemma HideAfterLoss(w: World, now: Snapshot) returns (w': World)
    requires Reachable(w) && UpToDate(w) && !w.agent.owesFullReport
    requires w.responses == multiset{} && w.pushes == multiset{}
    requires now.remoteConfigStatus.lastRemoteConfigHash == ReportedHash(w.agent.applied)
    ensures Reachable(w') && UpToDate(w') && w'.pushes == multiset{}
    ensures w'.agent == w.agent.(nextSeq := w'.agent.nextSeq, sent := now)
    ensures !w'.last.reply.reportFullState && w'.responses == multiset{w'.last.reply}
    ensures w'.entry.value.status.value.agentDescription == w.entry.value.status.value.agentDescription
  {
    ReachableInv(w);
    var lose := Lose(now, FullReport(w.agent, now));
    ReachesNext(w, lose);
    w' := Next(w, lose);
    var display := DisplayExists(now.effectiveConfig);
    var hides := Deliver(now, FullReport(w'.agent, now).(agentDescription := None), display, None);
    ReachesNext(w', hides);
    w' := Next(w', hides);
  }

  /**
   A report that hides its description, whatever the agent's capabilities and whatever the two
   descriptions: the second is lost with its report, the next report carries all else, and the server
   keeps the first description with no flag raised and nothing in flight.
   */
  lemma DescriptionCanStayStale(capabilities: set<Capability>, first: Snapshot, description: AgentDescription)
    returns (w: World)
    requires first.remoteConfigStatus.lastRemoteConfigHash == Bytes("")
    ensures Reachable(w) && w.agent.capabilities == capabilities
    ensures w.responses == multiset{} && w.pushes == multiset{} && UpToDate(w)
    ensures !w.last.reply.reportFullState && !w.agent.owesFullReport
    ensures w.agent.sent.agentDescription == description
    ensures w.entry.value.status.value.agentDescription == Some(first.agentDescription)
  {
    w := FirstContact(capabilities, first);
    var now := first.(agentDescription := description,
                      remoteConfigStatus := first.remoteConfigStatus.(lastRemoteConfigHash := Sha256("")));
    w := HideAfterLoss(w, now);
    assert w.responses == multiset{w.last.reply};
    ReachesNext(w, Respond(w.last.reply));
    w := Next(w, Respond(w.last.reply));
  }

  // ---------- Package statuses ----------

  /** The package statuses an entry stores, once it stores a status. */
  function StoredPackages(entry: Option<AgentState>): Option<PackageStatuses> {
    if entry.Some? && entry.value.status.Some? then entry.value.status.value.packageStatuses else None
  }

  /** As long as the entry lives, full reports included, nothing changes them. */
  lemma {:induction false} PackagesFrozen(w: World, steps: seq<Step>, w': World)
    requires w.entry.Some? && w.entry.value.status.Some? && Leads(w, steps, w')
    requires forall step <- steps :: !step.Disconnect?
    ensures w'.entry.Some? && w'.entry.value.status.Some? && StoredPackages(w'.entry) == StoredPackages(w.entry)
    decreases |steps|
  {
    if steps != [] {
      assert steps[0] in steps && forall step <- steps[1..] :: step in steps;
      PackagesFrozen(Next(w, steps[0]), steps[1..], w');
    }
  }

  /**
   Over every run from an entry's first report on, while the entry lives: at the last report received, the
   stored package statuses are the agent's if and only if the first report carried them and the agent's are still those.
   */
  lemma PackagesInStepExactlyWhen(w: World, first: Step, steps: seq<Step>, w': World)
    requires w.entry.None? || w.entry.value.status.None?
    requires first.Deliver? && Enabled(w, first) && Leads(Next(w, first), steps, w')
    requires forall step <- steps :: !step.Disconnect?
    ensures StoredPackages(w'.entry) == Some(w'.last.snapshot.packageStatuses) <==>
              && first.message.packageStatuses.Some?
              && w'.last.snapshot.packageStatuses == first.now.packageStatuses
  {
    PackagesFrozen(Next(w, first), steps, w');
    assert Met(w.entry, first.loaded).status.None?;
  }

  /** The entry is removed, and the report that creates it anew leaves out the package statuses and is flagged. */
  lemma Recreated(capabilities: set<Capability>, first: Snapshot, now: Snapshot) returns (w: World)
    requires ReportsPackageStatuses in capabilities
    requires first.remoteConfigStatus.lastRemoteConfigHash == Bytes("")
    requires now == first.(remoteConfigStatus := first.remoteConfigStatus.(lastRemoteConfigHash := Sha256("")))
    ensures Reachable(w) && UpToDate(w) && w.agent.capabilities == capabilities
    ensures w.last.reply.reportFullState && w.responses == multiset{w.last.reply}
    ensures w.agent.applied == Some(RemoteConfigOf("")) && StoredPackages(w.entry) == None
    ensures w.last.reply.remoteConfig in {None, Some(RemoteConfigOf(""))}
  {
    w := FirstContact(capabilities, first);
    var gone := Disconnect(multiset{}, multiset{});
    ReachesNext(w, gone);
    w := Next(w, gone);
    var report := FullReport(w.agent, now).(packageStatuses := None);
    var display := DisplayExists(now.effectiveConfig);
    var again := Deliver(now, report, display, None);
    ReachesNext(w, again);
    w := Next(w, again);
  }

  /**
   So an agent whose entry was removed, and whose next report leaves its package statuses out, is asked for
   full state and reports in full, but the entry stores no package statuses as long as it lives.
   */
  lemma FullReportDoesNotRestorePackages(capabilities: set<Capability>, first: Snapshot) returns (w: World)
    requires ReportsPackageStatuses in capabilities
    requires first.remoteConfigStatus.lastRemoteConfigHash == Bytes("")
    ensures Reachable(w) && UpToDate(w) && w.agent.capabilities == capabilities
    ensures !w.last.reply.reportFullState && !w.last.flagUnderway && !FullReportDue(w)
    ensures w.agent.sent.packageStatuses == first.packageStatuses && StoredPackages(w.entry) == None
  {
    var now := first.(remoteConfigStatus := first.remoteConfigStatus.(lastRemoteConfigHash := Sha256("")));
    w := Recreated(capabilities, first, now);
    var flag := Respond(w.last.reply);
    ReachesNext(w, flag);
    w := Next(w, flag);
    var full := CanAlwaysReport(w, now, None);
    ReachesNext(w, full);
    FullReportRecovers(w, full);
    w := Next(w, full);
    assert w.responses == multiset{w.last.reply};
  }
}
