/**
 The server's record of one connected agent, with the fields and methods of the program. Each method
 is proved against the functions of `AgentSpec`.
 */
module Agent {
  import opened Wrappers
  import opened Sets
  import opened Protobufs
  import opened AgentSpec
  import opened RegistrySpec
  import W = StatusWatchers

  /** A buffered channel of empty signals. */
  class Channel {
    const capacity: nat
    var buffered: nat

    constructor (capacity: nat)
      ensures this.capacity == capacity && buffered == 0
    {
      this.capacity := capacity;
      buffered := 0;
    }

    /** Sends without blocking: a full buffer drops the signal. */
    method TrySend()
      modifies this
      ensures buffered == if old(buffered) < capacity then old(buffered) + 1 else old(buffered)
    {
      if buffered < capacity {
        buffered := buffered + 1;
      }
    }
  }

  /** A remote config in memory: an entry holds it, and every message that carries it points to it. */
  class RemoteConfig {
    var config: ConfigMap
    var configHash: Digest

    constructor (config: ConfigMap, configHash: Digest)
      ensures Value() == AgentRemoteConfig(config, configHash)
    {
      this.config, this.configHash := config, configHash;
    }

    function Value(): AgentRemoteConfig
      reads this
    {
      AgentRemoteConfig(config, configHash)
    }
  }

  function ValueOf(c: RemoteConfig?): Option<AgentRemoteConfig>
    reads c
  {
    if c == null then None else Some(c.Value())
  }

  /** The server's end of a connection: the configs it was told to push, in order. */
  class Connection {
    var pushed: seq<RemoteConfig>

    constructor ()
      ensures pushed == []
    {
      pushed := [];
    }

    method Send(config: RemoteConfig)
      modifies this
      ensures pushed == old(pushed) + [config]
    {
      pushed := pushed + [config];
    }
  }

  /** The response under construction. */
  class ServerToAgent {
    var reportFullState: bool
    var remoteConfig: RemoteConfig?
    var connectionSettings: bool

    constructor ()
      ensures Value() == EMPTY_REPLY
    {
      reportFullState, remoteConfig, connectionSettings := false, null, false;
    }

    function Value(): Reply
      reads this, remoteConfig
    {
      Reply(reportFullState, ValueOf(remoteConfig), connectionSettings)
    }
  }

  /** What a response holds once a reply has been written over it. */
  function Overwritten(response: Reply, reply: Reply): Reply {
    Reply(response.reportFullState || reply.reportFullState,
          reply.remoteConfig.OrElse(response.remoteConfig),
          response.connectionSettings || reply.connectionSettings)
  }

  /** What a buffer holds after some signals more: a full one drops them. */
  function Filled(buffered: nat, capacity: nat, signals: nat): nat {
    if buffered + signals <= capacity then buffered + signals
    else if buffered <= capacity then capacity
    else buffered
  }

  /** Wakes every watcher in turn, as often as it is listed, without blocking on any. */
  method NotifyStatusWatchers(watchers: seq<Channel>)
    modifies set w | w in watchers
    ensures forall w <- watchers :: w.buffered == Filled(old(w.buffered), w.capacity, multiset(watchers)[w])
  {
    for i := 0 to |watchers|
      invariant forall w <- watchers :: w.buffered == Filled(old(w.buffered), w.capacity, multiset(watchers[..i])[w])
    {
      assert watchers[..i + 1] == watchers[..i] + [watchers[i]];
      watchers[i].TrySend();
    }
    assert watchers[..|watchers|] == watchers;
  }

  /** Compares two config maps file by file. */
  method IsEqualConfigSet(c1: ConfigMap, c2: ConfigMap) returns (equal: bool)
    ensures equal <==> c1 == c2
  {
    if |c1| != |c2| {
      return false;
    }
    var keys := c1.Keys;
    while keys != {}
      invariant keys <= c1.Keys
      invariant forall k | k in c1 && k !in keys :: k in c2 && c1[k] == c2[k]
      decreases keys
    {
      var k :| k in keys;
      if k !in c2 || c1[k] != c2[k] {
        return false;
      }
      keys := keys - {k};
    }
    SameSizeSubset(c1.Keys, c2.Keys);
    return true;
  }

  class Agent {
    const instanceId: InstanceId
    const conn: Connection
    var status: Option<AgentToServer>
    var startedAt: Option<nat>
    var effectiveConfig: string
    var customInstanceConfig: string
    var remoteConfig: RemoteConfig?
    var statusUpdateWatchers: seq<Channel>

    constructor (instanceId: InstanceId, conn: Connection)
      ensures Valid() && this.instanceId == instanceId && this.conn == conn
      ensures State() == NEW_AGENT && statusUpdateWatchers == []
    {
      this.instanceId, this.conn := instanceId, conn;
      status, startedAt, effectiveConfig, customInstanceConfig, remoteConfig := None, None, "", "", null;
      statusUpdateWatchers := [];
    }

    function State(): AgentState
      reads this, remoteConfig
    {
      AgentState(status, startedAt, effectiveConfig, customInstanceConfig, ValueOf(remoteConfig))
    }

    /** The remote config held agrees with the custom text and the stored status. */
    ghost predicate Valid()
      reads this, remoteConfig
    {
      Agrees(State())
    }

    /**
     Takes in a status report, completes the response, and wakes every watcher registered before it.
     */
    method UpdateStatus(statusMsg: AgentToServer, response: ServerToAgent)
      requires Valid()
      modifies this, response, statusUpdateWatchers
      ensures Valid()
      ensures State() == Received(old(State()), statusMsg, effectiveConfig)
      ensures IsEvent(Report(statusMsg, effectiveConfig))
      ensures response.Value() == Overwritten(old(response.Value()), ReplyTo(old(State()), statusMsg))
      ensures statusUpdateWatchers == []
      ensures forall w <- old(statusUpdateWatchers) ::
                w.buffered == Filled(old(w.buffered), w.capacity, multiset(old(statusUpdateWatchers))[w])
      ensures forall c: RemoteConfig | old(allocated(c)) :: c.Value() == old(c.Value())
      ensures forall w: W.Watch<Channel> | W.Stands(w, old(State()), old(statusUpdateWatchers)) ::
                && W.Stands(W.AfterReport(w, statusMsg, effectiveConfig), State(), statusUpdateWatchers)
                && W.Leads(w, W.ReportPath(statusMsg, effectiveConfig, old(statusUpdateWatchers)),
                           W.AfterReport(w, statusMsg, effectiveConfig))
    {
      ProcessStatusUpdate(statusMsg, response);
      var watchers := statusUpdateWatchers;
      statusUpdateWatchers := [];
      NotifyStatusWatchers(watchers);
      forall w: W.Watch<Channel> | W.Stands(w, old(State()), watchers)
        ensures W.Leads(w, W.ReportPath(statusMsg, effectiveConfig, watchers),
                        W.AfterReport(w, statusMsg, effectiveConfig))
      {
        W.ReportIsPath(w, statusMsg, effectiveConfig, watchers);
      }
    }

    method ProcessStatusUpdate(newStatus: AgentToServer, response: ServerToAgent)
      requires Valid()
      modifies this`status, this`startedAt, this`effectiveConfig, this`remoteConfig, response
      ensures Valid()
      ensures State() == Received(old(State()), newStatus, effectiveConfig)
      ensures IsEvent(Report(newStatus, effectiveConfig))
      ensures response.Value() == Overwritten(old(response.Value()), ReplyTo(old(State()), newStatus))
    {
      StoreAndRespond(newStatus, response);
      UpdateEffectiveConfig(newStatus);
      assert Agrees(State());
    }

    /** Everything a report does except taking in its effective config. */
    method StoreAndRespond(newStatus: AgentToServer, response: ServerToAgent)
      requires Agrees(State())
      modifies this`status, this`startedAt, this`remoteConfig, response
      ensures status == Some(MergeFields(old(status), newStatus))
      ensures startedAt == Received(old(State()), newStatus, "").startedAt
      ensures ValueOf(remoteConfig) == HeldConfig(old(State()), newStatus)
      ensures response.Value() == Overwritten(old(response.Value()), ReplyTo(old(State()), newStatus))
    {
      var lostPreviousUpdate := status.None? || status.value.sequenceNum + 1 != newStatus.sequenceNum;

      var agentDescrChanged := UpdateStatusField(newStatus);

      var statusIsCompressed := StatusIsCompressed(newStatus);
      if statusIsCompressed && lostPreviousUpdate {
        response.reportFullState := true;
      }
      OfferRemoteConfig(agentDescrChanged, response);
    }

    /** The part of the response that depends on the description and the config status. */
    method OfferRemoteConfig(agentDescrChanged: bool, response: ServerToAgent)
      requires status.Some?
      requires remoteConfig != null ==> remoteConfig.Value() == RemoteConfigOf(customInstanceConfig)
      requires remoteConfig == null ==> agentDescrChanged
      modifies this`remoteConfig, response`remoteConfig, response`connectionSettings
      ensures remoteConfig != null
      ensures ValueOf(remoteConfig) ==
                if agentDescrChanged then Some(RemoteConfigOf(customInstanceConfig)) else old(ValueOf(remoteConfig))
      ensures ValueOf(response.remoteConfig) ==
                if || ValueOf(remoteConfig) != old(ValueOf(remoteConfig))
                   || HashDiffers(status.value, remoteConfig.Value())
                then ValueOf(remoteConfig) else old(ValueOf(response.remoteConfig))
      ensures response.connectionSettings == (old(response.connectionSettings) || agentDescrChanged)
    {
      var configChanged := false;
      if agentDescrChanged {
        configChanged := CalcRemoteConfig(customInstanceConfig);
        CalcConnectionSettings(response);
      }
      if configChanged ||
         (status.value.remoteConfigStatus.Some? &&
          status.value.remoteConfigStatus.value.lastRemoteConfigHash != remoteConfig.configHash) {
        response.remoteConfig := remoteConfig;
      }
    }

    /** Whether the report leaves out a field that the stored capabilities promise. */
    method StatusIsCompressed(newStatus: AgentToServer) returns (compressed: bool)
      requires status.Some?
      ensures compressed <==> IsCompressed(status.value.capabilities, newStatus)
    {
      var effectiveConfigOmitted := newStatus.effectiveConfig.None? && HasCapability(ReportsEffectiveConfig);
      var packageStatusesOmitted := newStatus.packageStatuses.None? && HasCapability(ReportsPackageStatuses);
      var remoteConfigStatusOmitted := newStatus.remoteConfigStatus.None? && HasCapability(ReportsRemoteConfig);
      var healthOmitted := newStatus.health.None? && HasCapability(ReportsHealth);
      compressed := effectiveConfigOmitted || packageStatusesOmitted || remoteConfigStatusOmitted || healthOmitted;
    }

    predicate HasCapability(capability: Capability)
      requires status.Some?
      reads this
    {
      capability in status.value.capabilities
    }

    /** Stores everything but a later effective config, and says whether the description is new. */
    method UpdateStatusField(newStatus: AgentToServer) returns (agentDescrChanged: bool)
      modifies this`status, this`startedAt
      ensures agentDescrChanged == DescriptionChanged(old(State()), newStatus)
      ensures status == Some(MergeFields(old(status), newStatus))
      ensures startedAt == if newStatus.health.Some? && newStatus.health.value.healthy
                           then Some(newStatus.health.value.startTimeUnixNano) else old(startedAt)
    {
      agentDescrChanged := false;
      if status.None? {
        status := Some(newStatus);
        agentDescrChanged := true;
      }
      var changed := UpdateAgentDescription(newStatus);
      agentDescrChanged := changed || agentDescrChanged;
      UpdateRemoteConfigStatus(newStatus);
      UpdateHealth(newStatus);
    }

    method UpdateAgentDescription(newStatus: AgentToServer) returns (agentDescrChanged: bool)
      modifies this`status
      ensures agentDescrChanged == DescriptionChanged(old(State()), newStatus)
      ensures status == Some(match old(status)
                             case None => newStatus
                             case Some(s) => s.(
                               sequenceNum := newStatus.sequenceNum,
                               agentDescription := newStatus.agentDescription.OrElse(s.agentDescription),
                               remoteConfigStatus := newStatus.remoteConfigStatus.OrElse(s.remoteConfigStatus)))
    {
      if status.None? {
        status := Some(newStatus);
        agentDescrChanged := true;
      } else {
        status := Some(status.value.(sequenceNum := newStatus.sequenceNum));
        if newStatus.agentDescription.Some? {
          if status.value.agentDescription == newStatus.agentDescription {
            agentDescrChanged := false;
          } else {
            status := Some(status.value.(agentDescription := newStatus.agentDescription));
            agentDescrChanged := true;
          }
        } else {
          agentDescrChanged := false;
        }
        if newStatus.remoteConfigStatus.Some? && status.value.remoteConfigStatus != newStatus.remoteConfigStatus {
          status := Some(status.value.(remoteConfigStatus := newStatus.remoteConfigStatus));
        }
      }
    }

    method UpdateRemoteConfigStatus(newStatus: AgentToServer)
      requires status.Some?
      modifies this`status
      ensures status == Some(old(status).value.(
                remoteConfigStatus := newStatus.remoteConfigStatus.OrElse(old(status).value.remoteConfigStatus)))
    {
      if newStatus.remoteConfigStatus.Some? {
        status := Some(status.value.(remoteConfigStatus := newStatus.remoteConfigStatus));
      }
    }

    method UpdateHealth(newStatus: AgentToServer)
      requires status.Some?
      modifies this`status, this`startedAt
      ensures status == Some(old(status).value.(health := newStatus.health.OrElse(old(status).value.health)))
      ensures startedAt == if newStatus.health.Some? && newStatus.health.value.healthy
                           then Some(newStatus.health.value.startTimeUnixNano) else old(startedAt)
    {
      if newStatus.health.None? {
        return;
      }
      status := Some(status.value.(health := newStatus.health));
      if status.value.health.value.healthy {
        startedAt := Some(status.value.health.value.startTimeUnixNano);
      }
    }

    /** Stores a reported config map and joins its files for display, in whatever order the map yields them. */
    method UpdateEffectiveConfig(newStatus: AgentToServer)
      requires status.Some?
      modifies this`status, this`effectiveConfig
      ensures ReportedMap(newStatus).Some? ==>
                && status == Some(old(status).value.(effectiveConfig := newStatus.effectiveConfig))
                && IsDisplay(effectiveConfig, ReportedMap(newStatus).value)
      ensures ReportedMap(newStatus).None? ==> unchanged(this)
    {
      if newStatus.effectiveConfig.Some? {
        if newStatus.effectiveConfig.value.configMap.Some? {
          status := Some(status.value.(effectiveConfig := newStatus.effectiveConfig));
          var config := newStatus.effectiveConfig.value.configMap.value;
          effectiveConfig := "";
          var rest := config.Keys;
          ghost var order: seq<string> := [];
          while rest != {}
            invariant rest <= config.Keys
            invariant multiset(order) == multiset(config.Keys - rest)
            invariant forall k <- order :: k in config
            invariant effectiveConfig == Bodies(order, config)
            invariant status == Some(old(status).value.(effectiveConfig := newStatus.effectiveConfig))
            decreases rest
          {
            var k :| k in rest;
            effectiveConfig := effectiveConfig + config[k].body;
            rest := rest - {k};
            assert config.Keys - rest == (config.Keys - (rest + {k})) + {k};
            assert (order + [k])[..|order|] == order;
            order := order + [k];
          }
          assert config.Keys - rest == config.Keys;
          assert IsOrderOf(order, config);
        }
      }
    }

    /**
     Replaces the custom config. A changed config is pushed to the agent and the caller's channel waits
     for the next report; an unchanged one wakes the channel at once, so it must have room then. The channel is
     optional.
     */
    method SetCustomConfig(config: ConfigMap, notifyWhenConfigIsApplied: Channel?)
      requires Valid()
      requires "" in config
      requires notifyWhenConfigIsApplied != null && PushedBy(State(), config[""].body).None? ==>
                 notifyWhenConfigIsApplied.buffered < notifyWhenConfigIsApplied.capacity
      modifies this`customInstanceConfig, this`remoteConfig, this`statusUpdateWatchers, conn, notifyWhenConfigIsApplied
      ensures Valid()
      ensures State() == Edited(old(State()), config[""].body) && remoteConfig != null
      ensures customInstanceConfig == config[""].body
      ensures forall c: RemoteConfig | old(allocated(c)) :: c.Value() == old(c.Value())
      ensures
        var push := PushedBy(old(State()), config[""].body);
        && conn.pushed == old(conn.pushed) + (if push.Some? then [remoteConfig] else [])
        && (push.Some? ==> remoteConfig.Value() == push.value && Delivers(remoteConfig.Value(), config[""].body))
        && statusUpdateWatchers ==
           (if push.Some? && notifyWhenConfigIsApplied != null
            then old(statusUpdateWatchers) + [notifyWhenConfigIsApplied] else old(statusUpdateWatchers))
        && (notifyWhenConfigIsApplied != null ==>
              notifyWhenConfigIsApplied.buffered ==
              old(notifyWhenConfigIsApplied.buffered) + (if push.Some? then 0 else 1))
      ensures forall w: W.Watch<Channel> |
                && W.Stands(w, old(State()), old(statusUpdateWatchers))
                && notifyWhenConfigIsApplied != null && notifyWhenConfigIsApplied !in w.used ::
                && W.Stands(W.AfterEdit(w, config[""].body, notifyWhenConfigIsApplied), State(), statusUpdateWatchers)
                && W.Leads(w, W.EditPath(w.agent, config[""].body, notifyWhenConfigIsApplied),
                           W.AfterEdit(w, config[""].body, notifyWhenConfigIsApplied))
    {
      customInstanceConfig := config[""].body;
      var configChanged := CalcRemoteConfig(old(customInstanceConfig));
      if configChanged {
        if notifyWhenConfigIsApplied != null {
          statusUpdateWatchers := statusUpdateWatchers + [notifyWhenConfigIsApplied];
        }
        SendToAgent(remoteConfig);
      } else if notifyWhenConfigIsApplied != null {
        notifyWhenConfigIsApplied.TrySend();
      }
      forall w: W.Watch<Channel> |
        && W.Stands(w, old(State()), old(statusUpdateWatchers))
        && notifyWhenConfigIsApplied != null && notifyWhenConfigIsApplied !in w.used
        ensures W.Leads(w, W.EditPath(w.agent, config[""].body, notifyWhenConfigIsApplied),
                        W.AfterEdit(w, config[""].body, notifyWhenConfigIsApplied))
      {
        W.EditIsPath(w, config[""].body, notifyWhenConfigIsApplied);
      }
    }

    method SendToAgent(config: RemoteConfig)
      modifies conn
      ensures conn.pushed == old(conn.pushed) + [config]
    {
      conn.Send(config);
    }

    /**
     Builds the config from the custom text anew, hashing each file's name, body and type, and says
     whether it differs from the one held before, which carries the text `held`.
     */
    method CalcRemoteConfig(ghost held: string) returns (configChanged: bool)
      requires remoteConfig != null ==> remoteConfig.Value() == RemoteConfigOf(held)
      modifies this`remoteConfig
      ensures remoteConfig != null && fresh(remoteConfig)
      ensures remoteConfig.Value() == RemoteConfigOf(customInstanceConfig)
      ensures Delivers(remoteConfig.Value(), customInstanceConfig)
      ensures configChanged <==> ValueOf(remoteConfig) != old(ValueOf(remoteConfig))
    {
      var cfg := new RemoteConfig(map[], Bytes(""));
      cfg.config := cfg.config["" := AgentConfigFile(customInstanceConfig, "")];
      var hashed := "";
      var rest := cfg.config.Keys;
      while rest != {}
        invariant rest <= cfg.config.Keys
        invariant hashed == if "" in rest then "" else customInstanceConfig
        decreases rest
      {
        var k :| k in rest;
        hashed := hashed + k + cfg.config[k].body + cfg.config[k].contentType;
        rest := rest - {k};
      }
      assert "" !in rest;
      cfg.configHash := Sha256(hashed);
      if remoteConfig == null {
        configChanged := true;
      } else {
        var equal := IsEqualConfigSet(remoteConfig.config, cfg.config);
        configChanged := !equal;
        assert remoteConfig.Value().config[""].body == held && cfg.config[""].body == customInstanceConfig;
      }
      remoteConfig := cfg;
    }

    method CalcConnectionSettings(response: ServerToAgent)
      modifies response`connectionSettings
      ensures response.connectionSettings
    {
      response.connectionSettings := true;
    }
  }
}
