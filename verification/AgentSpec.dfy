/**
 What the server's record of one agent means: a value, the report that updates it, the edit that
 replaces its custom config, and what any run of reports and edits leaves in it.
 */
module AgentSpec {
  import opened Wrappers
  import opened Protobufs

  datatype AgentState = AgentState(
    status: Option<AgentToServer>,
    startedAt: Option<nat>,
    effectiveConfig: string,
    customInstanceConfig: string,
    remoteConfig: Option<AgentRemoteConfig>)

  const NEW_AGENT := AgentState(None, None, "", "", None)

  /** A config as an agent reads it: exactly one file, unnamed and untyped, with this text in it. */
  predicate Delivers(c: AgentRemoteConfig, text: string) {
    && c.config.Keys == {""}
    && c.config[""].body == text
    && c.config[""].contentType == ""
  }

  /** The one remote config that carries the given text, under the hash of its file's name, body and type. */
  function RemoteConfigOf(text: string): AgentRemoteConfig {
    AgentRemoteConfig(map["" := AgentConfigFile(text, "")], Sha256(text))
  }

  /** Only that config delivers the text under that hash. */
  lemma DeliversExactlyWhen(c: AgentRemoteConfig, text: string)
    ensures c == RemoteConfigOf(text) <==> Delivers(c, text) && c.configHash == Sha256(text)
  {
    if Delivers(c, text) {
      assert c.config == map["" := AgentConfigFile(text, "")];
    }
  }

  /** A new entry, with the saved config when one was loaded. */
  function NewEntry(loaded: Option<string>): AgentState {
    match loaded
    case None => NEW_AGENT
    case Some(text) => NEW_AGENT.(customInstanceConfig := text, remoteConfig := Some(RemoteConfigOf(text)))
  }

  // ---------- The effective config as one string ----------

  function Bodies(order: seq<string>, config: ConfigMap): string
    requires forall k <- order :: k in config
  {
    if order == [] then "" else Bodies(order[..|order| - 1], config) + config[order[|order| - 1]].body
  }

  /** `order` lists every key of the config exactly once. */
  ghost predicate IsOrderOf(order: seq<string>, config: ConfigMap) {
    multiset(order) == multiset(config.Keys)
  }

  /** `text` is the bodies of the config's files, one after another, in some order. */
  ghost predicate IsDisplay(text: string, config: ConfigMap) {
    exists order: seq<string> | IsOrderOf(order, config) && (forall k <- order :: k in config) ::
      text == Bodies(order, config)
  }

  /** The body of every file is somewhere in the display, and the display of a single file is its body. */
  lemma DisplayShowsEveryFile(text: string, config: ConfigMap, k: string)
    requires IsDisplay(text, config) && k in config
    ensures exists i, j | 0 <= i <= j <= |text| :: text[i..j] == config[k].body
    ensures config.Keys == {k} ==> text == config[k].body
  {
    var order: seq<string> :|
      IsOrderOf(order, config) && (forall k <- order :: k in config) && text == Bodies(order, config);
    assert k in multiset(order);
    var i, j := BodyShown(order, config, k);
    if config.Keys == {k} {
      assert |order| == |multiset(order)| == 1;
      assert order == [k];
      assert order[..0] == [];
      assert Bodies([k], config) == "" + config[k].body == config[k].body;
    }
  }

  lemma {:induction false} BodyShown(order: seq<string>, config: ConfigMap, k: string) returns (i: nat, j: nat)
    requires (forall k <- order :: k in config) && k in order
    ensures i <= j <= |Bodies(order, config)| && Bodies(order, config)[i..j] == config[k].body
  {
    var before, last := order[..|order| - 1], order[|order| - 1];
    var text, head := Bodies(order, config), Bodies(before, config);
    assert text == head + config[last].body && order == before + [last];
    if last == k {
      i, j := |head|, |text|;
    } else {
      i, j := BodyShown(before, config, k);
      assert text[i..j] == head[i..j];
    }
  }

  /** Every config has a display, so a report can always be received. */
  lemma {:induction false} DisplayExists(config: ConfigMap) returns (text: string)
    ensures IsDisplay(text, config)
  {
    var order := SomeOrder(config.Keys);
    assert forall k <- order :: k in multiset(order);
    text := Bodies(order, config);
  }

  lemma {:induction false} SomeOrder(keys: set<string>) returns (order: seq<string>)
    ensures multiset(order) == multiset(keys)
  {
    if keys == {} {
      order := [];
    } else {
      var k :| k in keys;
      var rest := SomeOrder(keys - {k});
      order := rest + [k];
      assert keys == (keys - {k}) + {k};
    }
  }

  // ---------- One report ----------

  /** The config map of a report that has one. */
  function ReportedMap(m: AgentToServer): Option<ConfigMap> {
    match m.effectiveConfig
    case Some(ec) => ec.configMap
    case None => None
  }

  /**
   The stored status after a report, but for the effective config: a first report is kept whole, later
   ones replace what they carry.
   */
  function MergeFields(stored: Option<AgentToServer>, m: AgentToServer): AgentToServer {
    match stored
    case None => m
    case Some(s) => s.(
      sequenceNum := m.sequenceNum,
      agentDescription := m.agentDescription.OrElse(s.agentDescription),
      health := m.health.OrElse(s.health),
      remoteConfigStatus := m.remoteConfigStatus.OrElse(s.remoteConfigStatus))
  }

  /** The stored status after a report. An effective config without a config map does not replace the stored one. */
  function MergeStatus(stored: Option<AgentToServer>, m: AgentToServer): AgentToServer {
    if ReportedMap(m).Some? then MergeFields(stored, m).(effectiveConfig := m.effectiveConfig)
    else MergeFields(stored, m)
  }

  /** No report is stored, or the one before this report never arrived. */
  predicate LostPrevious(s: AgentState, m: AgentToServer) {
    s.status.None? || s.status.value.sequenceNum + 1 != m.sequenceNum
  }

  /** The report leaves out a field that an agent with these capabilities reports. */
  predicate IsCompressed(capabilities: set<Capability>, m: AgentToServer) {
    || (m.effectiveConfig.None? && ReportsEffectiveConfig in capabilities)
    || (m.packageStatuses.None? && ReportsPackageStatuses in capabilities)
    || (m.remoteConfigStatus.None? && ReportsRemoteConfig in capabilities)
    || (m.health.None? && ReportsHealth in capabilities)
  }

  predicate DescriptionChanged(s: AgentState, m: AgentToServer) {
    s.status.None? || (m.agentDescription.Some? && m.agentDescription != s.status.value.agentDescription)
  }

  /** The remote config the entry holds after a report. */
  function HeldConfig(s: AgentState, m: AgentToServer): Option<AgentRemoteConfig> {
    if DescriptionChanged(s, m) then Some(RemoteConfigOf(s.customInstanceConfig)) else s.remoteConfig
  }

  /** The agent last reported a hash other than that of the config held. */
  predicate HashDiffers(status: AgentToServer, held: AgentRemoteConfig) {
    status.remoteConfigStatus.Some? && status.remoteConfigStatus.value.lastRemoteConfigHash != held.configHash
  }

  /** The entry after a report whose config map, where it has one, is shown as `display`. */
  function Received(s: AgentState, m: AgentToServer, display: string): AgentState {
    AgentState(
      Some(MergeStatus(s.status, m)),
      if m.health.Some? && m.health.value.healthy then Some(m.health.value.startTimeUnixNano) else s.startedAt,
      if ReportedMap(m).Some? then display else s.effectiveConfig,
      s.customInstanceConfig,
      HeldConfig(s, m))
  }

  /** The response to a report. */
  function ReplyTo(s: AgentState, m: AgentToServer): Reply
    requires Agrees(s)
  {
    var merged := MergeStatus(s.status, m);
    var held := HeldConfig(s, m);
    Reply(
      LostPrevious(s, m) && IsCompressed(merged.capabilities, m),
      if held != s.remoteConfig || HashDiffers(merged, held.value) then held else None,
      DescriptionChanged(s, m))
  }

  /** The entry after an edit of its custom config. */
  function Edited(s: AgentState, text: string): AgentState {
    s.(customInstanceConfig := text, remoteConfig := Some(RemoteConfigOf(text)))
  }

  /** An edit pushes the new config exactly when it differs from the one held so far. */
  function PushedBy(s: AgentState, text: string): Option<AgentRemoteConfig> {
    if s.remoteConfig == Some(RemoteConfigOf(text)) then None else Some(RemoteConfigOf(text))
  }

  // ---------- What every entry keeps ----------

  /**
   The remote config held is absent or carries exactly the custom text under its own hash, and it is
   there once a report is stored, so comparing hashes never follows a nil pointer.
   */
  ghost predicate Agrees(s: AgentState) {
    && (s.remoteConfig.None? ==> s.customInstanceConfig == "" && s.status.None?)
    && (s.remoteConfig.Some? ==> s.remoteConfig.value == RemoteConfigOf(s.customInstanceConfig))
  }

  /** The display string shows the stored config map, and is empty while there is none. */
  ghost predicate DisplayAgrees(s: AgentState) {
    match s.status
    case None => s.effectiveConfig == ""
    case Some(status) =>
      match ReportedMap(status)
      case None => s.effectiveConfig == ""
      case Some(config) => IsDisplay(s.effectiveConfig, config)
  }

  lemma ReceivedKeeps(s: AgentState, m: AgentToServer, display: string)
    requires Agrees(s) && DisplayAgrees(s)
    requires IsEvent(Report(m, display))
    ensures Agrees(Received(s, m, display)) && DisplayAgrees(Received(s, m, display))
  {
    assert ReportedMap(m).Some? ==> IsDisplay(display, ReportedMap(m).value);
  }

  // ---------- Runs of reports and edits ----------

  datatype Event = Report(message: AgentToServer, display: string) | Edit(text: string)

  ghost predicate IsEvent(e: Event) {
    e.Report? && ReportedMap(e.message).Some? ==> IsDisplay(e.display, ReportedMap(e.message).value)
  }

  function After(s: AgentState, e: Event): AgentState {
    match e
    case Report(m, display) => Received(s, m, display)
    case Edit(text) => Edited(s, text)
  }

  function Run(s: AgentState, events: seq<Event>): AgentState {
    if events == [] then s else After(Run(s, events[..|events| - 1]), events[|events| - 1])
  }

  function Reports(events: seq<Event>): seq<AgentToServer> {
    if events == [] then []
    else
      var before := Reports(events[..|events| - 1]);
      var last := events[|events| - 1];
      if last.Report? then before + [last.message] else before
  }

  // The value of a field in the last of the reports that carries it.

  function LastDescription(reports: seq<AgentToServer>): Option<AgentDescription> {
    if reports == [] then None
    else
      var last := reports[|reports| - 1].agentDescription;
      if last.Some? then last else LastDescription(reports[..|reports| - 1])
  }

  function LastHealth(reports: seq<AgentToServer>): Option<ComponentHealth> {
    if reports == [] then None
    else
      var last := reports[|reports| - 1].health;
      if last.Some? then last else LastHealth(reports[..|reports| - 1])
  }

  /** The start time in the last report of good health. */
  function LastStart(reports: seq<AgentToServer>): Option<nat> {
    if reports == [] then None
    else
      var health := reports[|reports| - 1].health;
      if health.Some? && health.value.healthy then Some(health.value.startTimeUnixNano)
      else LastStart(reports[..|reports| - 1])
  }

  function LastConfigStatus(reports: seq<AgentToServer>): Option<RemoteConfigStatus> {
    if reports == [] then None
    else
      var last := reports[|reports| - 1].remoteConfigStatus;
      if last.Some? then last else LastConfigStatus(reports[..|reports| - 1])
  }

  function LastMap(reports: seq<AgentToServer>): Option<ConfigMap> {
    if reports == [] then None
    else
      var last := reports[|reports| - 1].effectiveConfig;
      if last.Some? && last.value.configMap.Some? then last.value.configMap else LastMap(reports[..|reports| - 1])
  }

  function LastEdit(text: string, events: seq<Event>): string {
    if events == [] then text
    else if events[|events| - 1].Edit? then events[|events| - 1].text
    else LastEdit(text, events[..|events| - 1])
  }

  /**
   Merge refinement: after any run with at least one report, the entry holds for description,
   health and config status the last value carried, for sequence number the last, for capabilities
   and package statuses those of the first report.
   */
  lemma {:induction false} MergeRefinesLastValues(loaded: Option<string>, events: seq<Event>)
    requires Reports(events) != []
    ensures
      var reports := Reports(events);
      var status := Run(NewEntry(loaded), events).status;
      && status.Some?
      && status.value.sequenceNum == reports[|reports| - 1].sequenceNum
      && status.value.capabilities == reports[0].capabilities
      && status.value.packageStatuses == reports[0].packageStatuses
      && status.value.agentDescription == LastDescription(reports)
      && status.value.health == LastHealth(reports)
      && status.value.remoteConfigStatus == LastConfigStatus(reports)
      && ReportedMap(status.value) == LastMap(reports)
  {
    hide HeldConfig, RemoteConfigOf;
    var n := |events| - 1;
    var before := events[..n];
    if Reports(before) == [] {
      NoReportsNoStatus(loaded, before);
      assert Reports(events) == [events[n].message];
    } else {
      MergeRefinesLastValues(loaded, before);
      if events[n].Report? {
        assert Reports(events)[..|Reports(before)|] == Reports(before);
      }
    }
  }

  /** And it shows the files of the last config map carried, one after another, or nothing when there was none. */
  lemma DisplayShowsLastMap(loaded: Option<string>, events: seq<Event>)
    requires forall e <- events :: IsEvent(e)
    requires Reports(events) != []
    ensures
      match LastMap(Reports(events))
      case None => Run(NewEntry(loaded), events).effectiveConfig == ""
      case Some(config) => IsDisplay(Run(NewEntry(loaded), events).effectiveConfig, config)
  {
    MergeRefinesLastValues(loaded, events);
    RunKeepsAgreement(loaded, events);
  }

  lemma {:induction false} NoReportsNoStatus(loaded: Option<string>, events: seq<Event>)
    requires Reports(events) == []
    ensures Run(NewEntry(loaded), events).status.None?
    ensures Run(NewEntry(loaded), events).effectiveConfig == ""
  {
    if events != [] {
      NoReportsNoStatus(loaded, events[..|events| - 1]);
    }
  }

  /**
   Config and hash agreement in every reachable state: the custom text is the last one edited in
   (or the one loaded), and whatever remote config is held carries that text under the hash of that text.
   */
  lemma {:induction false} RunKeepsAgreement(loaded: Option<string>, events: seq<Event>)
    requires forall e <- events :: IsEvent(e)
    ensures Agrees(Run(NewEntry(loaded), events))
    ensures DisplayAgrees(Run(NewEntry(loaded), events))
    ensures Run(NewEntry(loaded), events).customInstanceConfig == LastEdit(loaded.GetOr(""), events)
  {
    if events != [] {
      var before, e := events[..|events| - 1], events[|events| - 1];
      RunKeepsAgreement(loaded, before);
      if e.Report? {
        assert IsEvent(e);
        ReceivedKeeps(Run(NewEntry(loaded), before), e.message, e.display);
      }
    }
  }

  /** The start time shown is that of the last report of good health. */
  lemma {:induction false} StartRefinesLastHealthy(loaded: Option<string>, events: seq<Event>)
    ensures Run(NewEntry(loaded), events).startedAt == LastStart(Reports(events))
  {
    hide MergeStatus, HeldConfig, ReportedMap;
    if events != [] {
      var n := |events| - 1;
      StartRefinesLastHealthy(loaded, events[..n]);
      if events[n].Report? {
        assert Reports(events)[..|Reports(events[..n])|] == Reports(events[..n]);
      }
    }
  }

  /**
   Connection settings are offered with the first report, and whenever a description other than the last
   one comes.
   */
  lemma SettingsOfferedExactlyWhen(loaded: Option<string>, events: seq<Event>, m: AgentToServer)
    requires forall e <- events :: IsEvent(e)
    ensures
      var s, reports := Run(NewEntry(loaded), events), Reports(events);
      Agrees(s) &&
      (ReplyTo(s, m).connectionSettings <==>
         reports == [] || (m.agentDescription.Some? && m.agentDescription != LastDescription(reports)))
  {
    RunKeepsAgreement(loaded, events);
    if Reports(events) == [] {
      NoReportsNoStatus(loaded, events);
    } else {
      MergeRefinesLastValues(loaded, events);
    }
  }

  /**
   What an agent is given: in every run the config an entry holds, the config a response carries and the
   config an edit pushes have the custom text of that moment in their one file, and no more.
   */
  lemma EveryConfigDelivers(loaded: Option<string>, events: seq<Event>, m: AgentToServer, text: string)
    requires forall e <- events :: IsEvent(e)
    ensures
      var s, current := Run(NewEntry(loaded), events), LastEdit(loaded.GetOr(""), events);
      && (s.remoteConfig.Some? ==> Delivers(s.remoteConfig.value, current))
      && Agrees(s)
      && (ReplyTo(s, m).remoteConfig.Some? ==> Delivers(ReplyTo(s, m).remoteConfig.value, current))
      && (PushedBy(s, text).Some? ==> Delivers(PushedBy(s, text).value, text))
      && (PushedBy(s, text).None? ==> s.remoteConfig.Some? && current == text)
  {
    RunKeepsAgreement(loaded, events);
    var s, current := Run(NewEntry(loaded), events), LastEdit(loaded.GetOr(""), events);
    ConfigSentExactlyWhen(s, m);
    DeliversExactlyWhen(RemoteConfigOf(current), current);
    DeliversExactlyWhen(RemoteConfigOf(text), text);
  }

  /**
   When the response to a report carries the config: exactly when this is the first report of an
   entry that loaded no saved config, or the agent has told its hash and it is another one. So a saved
   config is not sent to an agent that never reports a config status.
   */
  lemma ConfigSentExactlyWhen(s: AgentState, m: AgentToServer)
    requires Agrees(s)
    ensures
      var status := MergeStatus(s.status, m);
      ReplyTo(s, m).remoteConfig.Some? <==>
        || s.remoteConfig.None?
        || (status.remoteConfigStatus.Some? &&
            status.remoteConfigStatus.value.lastRemoteConfigHash != Sha256(s.customInstanceConfig))
    ensures
      ReplyTo(s, m).remoteConfig.Some? ==>
        ReplyTo(s, m).remoteConfig.value == RemoteConfigOf(s.customInstanceConfig)
  {
    if s.status.Some? {
      assert HeldConfig(s, m) == s.remoteConfig;
    }
  }
}
