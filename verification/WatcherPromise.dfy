/**
 What a wake-up tells the caller of an edit. The comment on the edit promises that its channel is notified
 once the config has been applied and the effective config reported; the server wakes it at the next report.
 Here the watchers stand beside the agent, so that the two can be compared.
 */
module WatcherPromise {
  import opened Wrappers
  import opened Protobufs
  import opened AgentSpec
  import opened OpampConvergence
  import P = OpampProtocol
  import W = StatusWatchers

  /** A channel waits only at an agent whose config has been edited. */
  predicate Configured<Ch>(v: W.Watch<Ch>) {
    v.pending != multiset{} ==> v.agent.remoteConfig.Some?
  }

  lemma {:induction false} RunKeepsConfigured<Ch>(v: W.Watch<Ch>, steps: seq<W.Step<Ch>>, v': W.Watch<Ch>)
    requires Configured(v) && W.Leads(v, steps, v')
    ensures Configured(v')
    decreases |steps|
  {
    if steps != [] {
      RunKeepsConfigured(W.Next(v, steps[0]), steps[1..], v');
    }
  }

  /**
   The promise, exactly. When a report that is answered without the flag, with none underway, takes a waiting
   channel to wake it, the agent has applied the current custom config if and only if the response carries no
   config, which the server could look at first. The effective config stored then is the agent's in any case.
   */
  lemma WokenMeansAppliedExactlyWhen<Ch>(start: W.Watch<Ch>, steps: seq<W.Step<Ch>>, v: W.Watch<Ch>, ch: Ch,
                                         w: P.World, step: P.Step)
    requires W.Init(start) && W.Leads(start, steps, v) && ch in v.pending
    requires P.Reachable(w) && w.entry == Some(v.agent) && ReportsRemoteConfig in w.agent.capabilities
    requires step.Deliver? && P.Enabled(w, step)
    requires !P.FlagUnderway(w) && !P.Next(w, step).last.reply.reportFullState
    ensures
      var v', w' := W.Next(v, W.LockedReport(step.message, step.display)), P.Next(w, step);
      && ch in v'.taken && w'.entry == Some(v'.agent)
      && (w'.agent.applied == Some(RemoteConfigOf(v'.agent.customInstanceConfig)) <==>
          w'.last.reply.remoteConfig.None?)
      && (ReportsEffectiveConfig in w.agent.capabilities ==>
            ReportedMap(v'.agent.status.value) == Some(step.now.effectiveConfig))
  {
    RunKeepsConfigured(start, steps, v);
    AnswerTellsApplied(w, step);
    P.ReachableInv(w);
    P.DeliverKeepsStatus(w, step);
  }

  /**
   And when an edit that changes nothing wakes its channel at once: after a report answered in step, with no
   config received since, the agent has applied the text if and only if it was the text at that report.
   */
  lemma WokenAtOnceMeansAppliedExactlyWhen<Ch>(v: W.Watch<Ch>, text: string, ch: Ch, w: P.World)
    requires PushedBy(v.agent, text).None?
    requires P.Reachable(w) && w.entry == Some(v.agent) && ReportsRemoteConfig in w.agent.capabilities
    requires P.Told(w) && P.AnsweredInStep(w)
    ensures ch in W.Next(v, W.LockedEdit(text, ch)).sending
    ensures w.agent.applied == Some(RemoteConfigOf(text)) <==> text == w.last.text
  {
    P.ReachableInv(w);
    P.ConvergedWhenQuiet(w);
    assert RemoteConfigOf(text).configHash == RemoteConfigOf(v.agent.customInstanceConfig).configHash;
  }

  /**
   The promise fails for an agent of any capabilities: it has confirmed its first config, the config is
   edited, and a full report that was on its way arrives before the push. The report wakes the channel, though
   the agent has not applied the text.
   */
  lemma WokenBeforeApplied<Ch>(capabilities: set<Capability>, first: P.Snapshot, text: string, ch: Ch)
    returns (start: W.Watch<Ch>, report: P.Step, v: W.Watch<Ch>, w: P.World)
    requires first.remoteConfigStatus.lastRemoteConfigHash == Bytes("") && text != ""
    ensures report.Deliver? && W.Init(start)
    ensures W.Leads(start,
                    [W.LockedEdit(text, ch), W.LockedReport(report.message, report.display), W.WakeTaken(ch)], v)
    ensures ch in v.woken
    ensures P.Reachable(w) && w.agent.capabilities == capabilities && w.entry == Some(v.agent)
    ensures !w.last.reply.reportFullState && !w.last.flagUnderway
    ensures v.agent.customInstanceConfig == text && w.agent.applied != Some(RemoteConfigOf(text))
  {
    hide P.InSync, P.Carries, IsDisplay, MergeStatus;
    var before := FirstConfigConfirmed(capabilities, first);
    start := W.Watch(before.entry.value, {}, multiset{}, multiset{}, multiset{}, multiset{});
    var edit := P.EditConfig(text);
    P.ReachesNext(before, edit);
    var edited := P.Next(before, edit);
    report := P.CanAlwaysReport(edited, edited.agent.sent, None);
    P.ReachesNext(edited, report);
    w := P.Next(edited, report);
    assert RemoteConfigOf(text).configHash != RemoteConfigOf("").configHash;
    v := EditReportWake(start, text, ch, report.message, report.display);
  }

  lemma EditReportWake<Ch>(start: W.Watch<Ch>, text: string, ch: Ch, m: AgentToServer, display: string)
    returns (v: W.Watch<Ch>)
    requires W.Init(start) && PushedBy(start.agent, text).Some?
    ensures W.Leads(start, [W.LockedEdit(text, ch), W.LockedReport(m, display), W.WakeTaken(ch)], v)
    ensures ch in v.woken && v.agent == Received(Edited(start.agent, text), m, display)
  {
    hide Received;
    var edit, report, wake := W.LockedEdit(text, ch), W.LockedReport(m, display), W.WakeTaken(ch);
    var edited := W.Next(start, edit);
    var reported := W.Next(edited, report);
    assert ch in edited.pending && ch in reported.taken;
    v := W.Next(reported, wake);
    assert [wake][1..] == [] && [report, wake][1..] == [wake] && [edit, report, wake][1..] == [report, wake];
    assert W.Leads(reported, [wake], v);
    assert W.Leads(edited, [report, wake], v);
  }
}
