/**
 Saved configs as the agents see them: each action of the server is a step of the protocol with every
 agent it concerns, so what the registry keeps and what the protocol delivers compose.
 */
module SavedConfigs {
  import opened Wrappers
  import opened Protobufs
  import opened AgentSpec
  import P = OpampProtocol
  import R = RegistrySpec

  /** The protocol's entry is what the registry has for the id. */
  predicate Shows<C>(s: R.Server<C>, id: R.InstanceId, w: P.World) {
    w.entry == if id in s.registry.agents then Some(s.registry.agents[id].state) else None
  }

  /** What an action of the server is for the agent of the id: a report loads what the id's file holds. */
  function StepOf<C>(s: R.Server<C>, id: R.InstanceId, a: R.Action<C>, now: P.Snapshot, w: P.World,
                     isYamlObject: string -> bool): Option<P.Step>
  {
    match a
    case Message(from, _, m, display) =>
      if from == id then Some(P.Deliver(now, m, display, R.LoadedConfig(s.files, id, isYamlObject))) else None
    case Close(conn) =>
      if id in s.registry.agents && s.registry.agents[id].conn == conn then Some(P.Disconnect(w.pushes, w.responses))
      else None
    case Save(raw, text) =>
      if R.SaveOutcome(s, raw, text, isYamlObject) == R.Accepted && R.Parse(raw) == id then Some(P.EditConfig(text))
      else None
    case Restart => Some(P.Disconnect(w.pushes, w.responses))
  }

  /** Every action of the server is that step for the agent it concerns, and no step for any other. */
  lemma ActionIsStep<C>(s: R.Server<C>, id: R.InstanceId, a: R.Action<C>, now: P.Snapshot, w: P.World,
                        isYamlObject: string -> bool)
    requires R.IsIndexed(s.registry) && Shows(s, id, w)
    requires w.entry.Some? ==> Agrees(w.entry.value)
    requires a.Message? && a.id == id ==> P.Conforms(w.agent, now, a.message) && IsEvent(Report(a.message, a.display))
    ensures
      match StepOf(s, id, a, now, w, isYamlObject)
      case None => Shows(R.After(s, a, isYamlObject), id, w)
      case Some(step) => P.Enabled(w, step) && Shows(R.After(s, a, isYamlObject), id, P.Next(w, step))
  {
    hide Received, ReplyTo, Edited, P.Conforms;
    if a.Close? {
      R.DisconnectRemovesExactly(s.registry, a.conn);
    }
  }

  /**
   End to end: after a live agent's config is saved, or cleared, under its id, and through any run of the
   server without a further save for that id, the next report of the agent that includes its config status, on whatever
   connection, is answered so that the agent holds exactly the saved text, whether its entry lived on or
   was created anew from the file. Its report after that is answered without a config.
   */
  lemma SavedConfigReachesAgent<C>(s: R.Server<C>, id: R.InstanceId, text: string, actions: seq<R.Action<C>>,
                                   isYamlObject: string -> bool, w: P.World, first: P.Step, second: P.Step)
    requires R.MatchesFiles(s)
    requires R.IsAgentId(id) && id in s.registry.agents && R.IsSavable(text, isYamlObject)
    requires forall a <- actions :: R.IsCanonicalSave(a) && (a.Save? ==> a.raw != id.uuid)
    requires P.Reachable(w) && ReportsRemoteConfig in w.agent.capabilities
    requires Shows(R.Run(R.Saved(s, id.uuid, text, isYamlObject), actions, isYamlObject), id, w)
    requires first.Deliver? && P.Enabled(w, first) && first.message.remoteConfigStatus.Some?
    requires first.loaded ==
             R.LoadedConfig(R.Run(R.Saved(s, id.uuid, text, isYamlObject), actions, isYamlObject).files, id,
                 isYamlObject)
    requires second.Deliver? && P.Enabled(P.Exchange(w, first), second)
    ensures
      var w1, w2 := P.Exchange(w, first), P.Exchange(P.Exchange(w, first), second);
      && w1.agent.applied == Some(RemoteConfigOf(text)) && Delivers(w1.agent.applied.value, text)
      && w2.last.reply.remoteConfig.None?
      && w2.agent.applied == Some(RemoteConfigOf(text))
  {
    R.SavedConfigSurvives(s, id, text, actions, isYamlObject);
    R.SaveGoesThroughExactlyWhen(s, id, text, isYamlObject);
    P.ReachableInv(w);
    P.ExchangeConverges(w, first);
    P.ConvergesInTwoExchanges(w, first, second);
    assert P.Met(w.entry, first.loaded).customInstanceConfig == text;
  }
}
