/**
 The OpAMP messages the server handles, as values. A nil pointer is `None`.

 A SHA-256 digest is an injective function of the bytes hashed: `Sha256(input)`. `Bytes` stands
 for every other byte string an agent may report as a hash.
 */
module Protobufs {
  import opened Wrappers

  /** The capability bits the server tests; the others are `OtherCapability`. */
  datatype Capability =
    | ReportsEffectiveConfig
    | ReportsPackageStatuses
    | ReportsRemoteConfig
    | ReportsHealth
    | OtherCapability(bit: nat)

  datatype AgentConfigFile = AgentConfigFile(body: string, contentType: string)

  type ConfigMap = map<string, AgentConfigFile>

  datatype EffectiveConfig = EffectiveConfig(configMap: Option<ConfigMap>)

  datatype Digest = Sha256(input: string) | Bytes(raw: string)

  datatype RemoteConfigStatus =
    RemoteConfigStatus(lastRemoteConfigHash: Digest, status: nat, errorMessage: string)

  datatype ComponentHealth = ComponentHealth(healthy: bool, startTimeUnixNano: nat, lastError: string)

  datatype AgentDescription =
    AgentDescription(identifying: seq<(string, string)>, nonIdentifying: seq<(string, string)>)

  datatype PackageStatuses = PackageStatuses(versions: map<string, string>, errorMessage: string)

  datatype AgentToServer = AgentToServer(
    sequenceNum: nat,
    capabilities: set<Capability>,
    agentDescription: Option<AgentDescription>,
    health: Option<ComponentHealth>,
    effectiveConfig: Option<EffectiveConfig>,
    remoteConfigStatus: Option<RemoteConfigStatus>,
    packageStatuses: Option<PackageStatuses>)

  datatype AgentRemoteConfig = AgentRemoteConfig(config: ConfigMap, configHash: Digest)

  /**
   What a response carries: the ReportFullState flag, a remote config, and whether connection settings are
   offered.
   */
  datatype Reply = Reply(reportFullState: bool, remoteConfig: Option<AgentRemoteConfig>, connectionSettings: bool)

  const EMPTY_REPLY := Reply(false, None, false)
}
