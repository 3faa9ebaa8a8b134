/**
 The registry of connected agents and the server's handlers, with the program's maps and objects. Each
 method is proved against the functions of `RegistrySpec`.
 */
module OpampServer {
  import opened Wrappers
  import opened Protobufs
  import opened AgentSpec
  import opened Agent
  import R = RegistrySpec

  /** The directory of saved configs; a file is named after an id. */
  class ConfigDirectory {
    var files: R.Files

    constructor (files: R.Files)
      ensures this.files == files
    {
      this.files := files;
    }
  }

  class Agents {
    var agentsById: map<R.InstanceId, Agent>
    var connections: map<Connection, set<R.InstanceId>>
    const directory: ConfigDirectory
    const isYamlObject: string -> bool

    /** The registry as a value, and the agents it has held; `Valid` ties them to the map. */
    ghost var registry: R.Registry<Connection>
    ghost var objects: set<Agent>

    constructor (directory: ConfigDirectory, isYamlObject: string -> bool)
      ensures Valid() && this.directory == directory && this.isYamlObject == isYamlObject
      ensures registry == R.Registry(map[], map[])
    {
      agentsById, connections := map[], map[];
      this.directory, this.isYamlObject := directory, isYamlObject;
      registry, objects := R.Registry(map[], map[]), {};
    }

    ghost function Server(): R.Server<Connection>
      reads this, directory
    {
      R.Server(registry, directory.files)
    }

    static ghost function EntryOf(agent: Agent): R.Entry<Connection>
      reads agent, agent.remoteConfig
    {
      R.Entry(agent.conn, agent.State())
    }

    /** The agent of an id and the channels that wait for its next report. */
    ghost function Footprint(id: R.InstanceId): set<object>
      reads this, objects, set a <- objects :: a.remoteConfig
      requires Valid()
    {
      if id in agentsById then {agentsById[id]} + (set w: object | w in agentsById[id].statusUpdateWatchers) else {}
    }

    /** Each id has a valid agent of its own, and the registry shows the state of each. */
    ghost predicate Valid()
      reads this, objects, set a <- objects :: a.remoteConfig
    {
      && registry.connections == connections
      && registry.agents.Keys == agentsById.Keys
      && (forall id <- agentsById ::
            var agent := agentsById[id];
            && agent in objects
            && agent.instanceId == id
            && agent.Valid()
            && registry.agents[id] == EntryOf(agent))
    }

    lemma HasAgent(id: R.InstanceId)
      requires Valid()
      ensures id in agentsById <==> id in registry.agents
      ensures id in agentsById ==>
                && agentsById[id] in objects && agentsById[id].instanceId == id
    {
    }

    /** `Valid`, but for the state of one agent, which has just been changed. */
    ghost predicate ValidBut(changed: R.InstanceId)
      reads this, objects, set a <- objects :: a.remoteConfig
    {
      && registry.connections == connections
      && registry.agents.Keys == agentsById.Keys
      && (forall id <- agentsById :: agentsById[id] in objects && agentsById[id].instanceId == id)
      && (forall id <- agentsById | id != changed ::
            agentsById[id].Valid() && registry.agents[id] == EntryOf(agentsById[id]))
    }

    /** Brings the value up to date with an agent that has been changed. */
    ghost method Refresh(agentId: R.InstanceId)
      requires ValidBut(agentId)
      requires agentId in agentsById && agentsById[agentId].Valid()
      requires registry.agents[agentId].conn == agentsById[agentId].conn
      modifies this`registry
      ensures Valid()
      ensures Server() == R.WithState(old(Server()), agentId, agentsById[agentId].State())
    {
      hide Agrees, Agent.Valid, Agent.State;
      registry := R.WithState(Server(), agentId, agentsById[agentId].State()).registry;
    }

    /** Removes a connection and every agent that was created on it. */
    method RemoveConnection(conn: Connection)
      requires Valid()
      modifies this`agentsById, this`connections, this`registry
      ensures Valid()
      ensures registry == R.Disconnected(old(registry), conn)
    {
      hide Agrees, Agent.Valid, Agent.State;
      if conn in connections {
        DeleteAgents(connections[conn]);
      }
      connections := connections - {conn};
      registry := R.Disconnected(registry, conn);
    }

    method DeleteAgents(instanceIds: set<R.InstanceId>)
      modifies this`agentsById
      ensures agentsById == old(agentsById) - instanceIds
    {
      var rest := instanceIds;
      while rest != {}
        invariant rest <= instanceIds
        invariant agentsById == old(agentsById) - (instanceIds - rest)
        decreases rest
      {
        var instanceId :| instanceId in rest;
        agentsById := agentsById - {instanceId};
        rest := rest - {instanceId};
      }
      assert instanceIds - rest == instanceIds;
    }

    method FindOrCreateAgent(agentId: R.InstanceId, conn: Connection) returns (agent: Agent)
      requires Valid()
      modifies this, directory
      ensures Valid()
      ensures agentId in agentsById && agent == agentsById[agentId]
      ensures forall id | id in agentsById && id != agentId ::
                id in old(agentsById) && agentsById[id] == old(agentsById)[id]
      ensures agentId in old(agentsById) ==> agent == old(agentsById)[agentId]
      ensures agentId !in old(agentsById) ==> fresh(agent) && agent.statusUpdateWatchers == []
      ensures Server() == R.FoundOrCreated(old(Server()), agentId, conn, isYamlObject)
    {
      hide Valid, Agrees, Agent.Valid;
      HasAgent(agentId);
      if agentId in agentsById {
        return agentsById[agentId];
      }
      agent := new Agent(agentId, conn);
      LoadPersistedConfig(agentId, agent);
      Register(agentId, agent);
    }

    /** Enters a new agent and associates its id with the connection it was created on. */
    method Register(agentId: R.InstanceId, agent: Agent)
      requires Valid() && agentId !in agentsById
      requires agent.Valid() && agent.instanceId == agentId
      modifies this
      ensures Valid()
      ensures agentsById == old(agentsById)[agentId := agent]
      ensures registry == R.Registry(old(registry.agents)[agentId := EntryOf(agent)],
                                     old(registry.connections)[
                                       agent.conn := R.IdsOn(old(registry), agent.conn) + {agentId}])
    {
      hide Agrees, Agent.Valid, Agent.State;
      registry := R.Registry(registry.agents[agentId := EntryOf(agent)],
                             registry.connections[agent.conn := R.IdsOn(registry, agent.conn) + {agentId}]);
      agentsById, objects := agentsById[agentId := agent], objects + {agent};
      Associate(agentId, agent.conn);
    }

    method Associate(agentId: R.InstanceId, conn: Connection)
      modifies this`connections
      ensures connections ==
                old(connections)[conn := (if conn in old(connections) then old(connections)[conn] else {}) + {agentId}]
    {
      if conn !in connections {
        connections := connections[conn := {}];
      }
      connections := connections[conn := connections[conn] + {agentId}];
    }

    /** Passes a report to an agent of the registry. */
    method UpdateAgentStatus(agentId: R.InstanceId, msg: AgentToServer, response: ServerToAgent)
      returns (ghost display: string)
      requires Valid()
      requires agentId in agentsById
      modifies this`registry, agentsById[agentId], agentsById[agentId].statusUpdateWatchers, response
      ensures Valid()
      ensures IsEvent(Report(msg, display))
      ensures old(agentId in registry.agents && Agrees(registry.agents[agentId].state))
      ensures Server() ==
                R.WithState(old(Server()), agentId, Received(old(registry.agents[agentId].state), msg, display))
      ensures response.Value() == Overwritten(old(response.Value()), ReplyTo(old(registry.agents[agentId].state), msg))
    {
      hide Received, ReplyTo, Overwritten, Agrees;
      var agent := agentsById[agentId];
      agent.UpdateStatus(msg, response);
      display := agent.effectiveConfig;
      Refresh(agentId);
    }

    /** Passes an edit to an agent, if the registry has it. */
    method SetCustomConfigForAgent(agentId: R.InstanceId, config: ConfigMap, notifyNextStatusUpdate: Channel?)
      requires Valid()
      requires "" in config
      requires notifyNextStatusUpdate != null && agentId in agentsById &&
               PushedBy(registry.agents[agentId].state, config[""].body).None? ==>
                 notifyNextStatusUpdate.buffered < notifyNextStatusUpdate.capacity
      modifies this`registry, notifyNextStatusUpdate
      modifies if agentId in agentsById then {agentsById[agentId], agentsById[agentId].conn} else {}
      ensures Valid()
      ensures Server() ==
                if agentId in agentsById
                then R.WithState(old(Server()), agentId, Edited(old(registry.agents[agentId].state), config[""].body))
                else old(Server())
      ensures agentId in agentsById ==>
                var agent := agentsById[agentId];
                && agent.customInstanceConfig == config[""].body
                && agent.remoteConfig != null
                && agent.conn.pushed == old(agent.conn.pushed) +
                   (if PushedBy(old(registry.agents[agentId].state), config[""].body).Some?
                    then [agent.remoteConfig] else [])
      ensures notifyNextStatusUpdate != null && agentId in agentsById ==>
                notifyNextStatusUpdate.buffered == old(notifyNextStatusUpdate.buffered) +
                if PushedBy(old(registry.agents[agentId].state), config[""].body).None? then 1 else 0
    {
      hide Edited, PushedBy, Agrees;
      if agentId in agentsById {
        var agent := agentsById[agentId];
        agent.SetCustomConfig(config, notifyNextStatusUpdate);
        Refresh(agentId);
      }
    }

    /** Gives a new agent its saved config; a file that holds no YAML object is deleted. */
    method LoadPersistedConfig(agentId: R.InstanceId, agent: Agent)
      requires agent.Valid() && agent.State() == NEW_AGENT
      modifies agent`customInstanceConfig, agent`remoteConfig, directory
      ensures agent.Valid() && agent.State() == NewEntry(R.LoadedConfig(old(directory.files), agentId, isYamlObject))
      ensures directory.files == R.FilesAfterLoad(old(directory.files), agentId, isYamlObject)
    {
      if agentId.uuid !in directory.files {
        return;
      }
      var configData := directory.files[agentId.uuid];
      if !isYamlObject(configData) {
        directory.files := directory.files - {agentId.uuid};
        return;
      }
      agent.customInstanceConfig := configData;
      var _ := agent.CalcRemoteConfig("");
    }
  }

  /** The instance uid of a report, as far as the handler looks at it. */
  datatype Uid = Ulid(parsed: Option<R.InstanceId>) | Raw(id: R.InstanceId) | BadLength

  function ParseUid(uid: Uid): Option<R.InstanceId> {
    match uid
    case Ulid(parsed) => parsed
    case Raw(id) => Some(id)
    case BadLength => None
  }

  /** Handles a report: a report without a usable uid changes nothing and gets an empty response. */
  method OnMessage(agents: Agents, conn: Connection, uid: Uid, msg: AgentToServer)
    returns (response: ServerToAgent, ghost display: string)
    requires agents.Valid()
    modifies agents, agents.directory
    modifies if ParseUid(uid).Some? then agents.Footprint(ParseUid(uid).value) else {}
    ensures agents.Valid()
    ensures ParseUid(uid).None? ==> agents.Server() == old(agents.Server()) && response.Value() == EMPTY_REPLY
    ensures uid.Raw? ==> uid.id in agents.agentsById
    ensures uid.Ulid? && uid.parsed.Some? ==> uid.parsed.value in agents.agentsById
    ensures ParseUid(uid).Some? ==>
              var id := ParseUid(uid).value;
              var found := R.FoundOrCreated(old(agents.Server()), id, conn, agents.isYamlObject);
              var met := found.registry.agents[id].state;
              && IsEvent(Report(msg, display))
              && agents.Server() ==
                 R.After(old(agents.Server()), R.Message(id, conn, msg, display), agents.isYamlObject)
              && Agrees(met) && response.Value() == ReplyTo(met, msg)
    ensures forall c: RemoteConfig | old(allocated(c)) :: c.Value() == old(c.Value())
  {
    hide Agents.Valid, Received, ReplyTo, Agrees, R.FoundOrCreated;
    response := new ServerToAgent();
    display := "";
    var parsed := ParseUid(uid);
    if parsed.None? {
      return;
    }
    var agent := agents.FindOrCreateAgent(parsed.value, conn);
    display := agents.UpdateAgentStatus(parsed.value, msg, response);
  }

  method OnDisconnect(agents: Agents, conn: Connection)
    requires agents.Valid()
    modifies agents
    ensures agents.Valid()
    ensures agents.Server() == R.After(old(agents.Server()), R.Close(conn), agents.isYamlObject)
    ensures forall c: RemoteConfig | old(allocated(c)) :: c.Value() == old(c.Value())
  {
    agents.RemoveConnection(conn);
  }

  /**
   Saves or clears an agent's config: the file first, then the agent, which is pushed the config if it
   is another one. A refused request changes nothing. A request is answered at once if nothing is pushed
   (`answered`), and otherwise waits for the agent's next report, for a limited time.
   */
  method HandleSaveConfig(agents: Agents, requestId: string, config: string)
    returns (outcome: R.SaveResult, answered: bool)
    requires agents.Valid()
    modifies agents`registry, agents.directory, agents.objects
    modifies set a <- agents.objects :: a.conn
    ensures agents.Valid()
    ensures outcome == R.SaveOutcome(old(agents.Server()), requestId, config, agents.isYamlObject)
    ensures agents.Server() == R.After(old(agents.Server()), R.Save(requestId, config), agents.isYamlObject)
    ensures outcome == R.Accepted <==>
              && R.IsUuid(requestId) && R.Parse(requestId) in old(agents.agentsById)
              && (config == "" || agents.isYamlObject(config))
    ensures outcome == R.Accepted ==>
              && agents.agentsById[R.Parse(requestId)].customInstanceConfig == config
              && agents.directory.files ==
                 if config == "" then old(agents.directory.files) - {requestId}
                 else old(agents.directory.files)[requestId := config]
    ensures outcome != R.Accepted ==> agents.Server() == old(agents.Server())
    ensures outcome == R.Accepted ==>
              var agent := agents.agentsById[R.Parse(requestId)];
              && agent.remoteConfig != null
              && agent.conn.pushed == old(agent.conn.pushed) +
                 (if PushedBy(old(agents.registry).agents[agent.instanceId].state, config).Some?
                  then [agent.remoteConfig] else [])
    ensures forall c: RemoteConfig | old(allocated(c)) :: c.Value() == old(c.Value())
    ensures answered <==>
              (outcome == R.Accepted ==> PushedBy(old(agents.registry).agents[R.Parse(requestId)].state, config).None?)
  {
    hide Agents.Valid, Edited, PushedBy, Agrees, R.IsUuid, R.Canonical;
    agents.HasAgent(R.Parse(requestId));
    if !R.IsUuid(requestId) {
      return R.InvalidId, true;
    }
    var instanceId := R.Parse(requestId);
    if instanceId !in agents.agentsById {
      return R.AgentNotFound, true;
    }
    if config == "" {
      agents.directory.files := agents.directory.files - {requestId};
    } else {
      if !agents.isYamlObject(config) {
        return R.InvalidYaml, true;
      }
      agents.directory.files := agents.directory.files[requestId := config];
    }
    outcome := R.Accepted;
    var notifyNextStatusUpdate := new Channel(1);
    agents.SetCustomConfigForAgent(instanceId, map["" := AgentConfigFile(config, "")], notifyNextStatusUpdate);
    answered := notifyNextStatusUpdate.buffered > 0;
  }
}
