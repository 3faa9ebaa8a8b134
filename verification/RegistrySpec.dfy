/**
 The server's registry of agents and its directory of saved configs, as values, and what any run of
 messages, disconnects, saves and restarts keeps.

 An instance id is the canonical form of a UUID: 36 characters, lower-case hexadecimal digits in
 groups of 8, 4, 4, 4 and 12. A config file is named after an id; its name here is that id.
 */
module RegistrySpec {
  import opened Wrappers
  import opened Protobufs
  import opened AgentSpec

  datatype InstanceId = InstanceId(uuid: string)

  datatype Entry<C> = Entry(conn: C, state: AgentState)

  /** The agents by id, and per connection the ids created on it. */
  datatype Registry<C> = Registry(agents: map<InstanceId, Entry<C>>, connections: map<C, set<InstanceId>>)

  type Files = map<string, string>

  datatype Server<C> = Server(registry: Registry<C>, files: Files)

  // ---------- Ids ----------

  function LowerDigit(c: char): char {
    if 'A' <= c <= 'F' then c - 'A' + 'a' else c
  }

  /** Upper-case hexadecimal digits of a request's id become lower case, as parsing and printing a UUID does. */
  function Canonical(raw: string): (id: string)
    ensures |id| == |raw|
    ensures forall i | 0 <= i < |raw| :: id[i] == LowerDigit(raw[i])
  {
    if raw == "" then "" else Canonical(raw[..|raw| - 1]) + [LowerDigit(raw[|raw| - 1])]
  }

  /** The id a request means. */
  function Parse(raw: string): InstanceId {
    InstanceId(Canonical(raw))
  }

  predicate IsHexDigit(c: char) {
    '0' <= c <= '9' || 'a' <= c <= 'f' || 'A' <= c <= 'F'
  }

  predicate IsUuid(raw: string) {
    && |raw| == 36
    && forall i | 0 <= i < 36 ::
         if i == 8 || i == 13 || i == 18 || i == 23 then raw[i] == '-' else IsHexDigit(raw[i])
  }

  /** The hexadecimal digits of 16 bytes. */
  predicate AreDigits(digits: seq<int>) {
    |digits| == 32 && forall k | 0 <= k < 32 :: 0 <= digits[k] < 16
  }

  function Digit(d: int): char
    requires 0 <= d < 16
  {
    if d < 10 then '0' + d as char else 'a' + (d - 10) as char
  }

  function DashesBefore(i: nat): nat {
    if i <= 8 then 0 else if i <= 13 then 1 else if i <= 18 then 2 else if i <= 23 then 3 else 4
  }

  /** The canonical form of an id of 16 bytes: its digits, with dashes at four places. */
  function Printed(digits: seq<int>): string
    requires AreDigits(digits)
  {
    seq(36, i requires 0 <= i < 36 =>
      if i == 8 || i == 13 || i == 18 || i == 23 then '-' else Digit(digits[i - DashesBefore(i)]))
  }

  /** An id that an agent can have: the canonical form of some 16 bytes. */
  ghost predicate IsAgentId(id: InstanceId) {
    exists digits: seq<int> | AreDigits(digits) :: id.uuid == Printed(digits)
  }

  lemma DigitsAreLower(d: int, e: int)
    requires 0 <= d < 16 && 0 <= e < 16
    ensures IsHexDigit(Digit(d)) && LowerDigit(Digit(d)) == Digit(d)
    ensures Digit(d) == Digit(e) ==> d == e
  {
  }

  /** What is printed is well-formed, and means the id it was printed from. */
  lemma PrintedIsCanonical(digits: seq<int>)
    requires AreDigits(digits)
    ensures IsUuid(Printed(digits)) && Parse(Printed(digits)) == InstanceId(Printed(digits))
  {
    var id := Printed(digits);
    forall i | 0 <= i < 36
      ensures LowerDigit(id[i]) == id[i]
      ensures if i == 8 || i == 13 || i == 18 || i == 23 then id[i] == '-' else IsHexDigit(id[i])
    {
      if i != 8 && i != 13 && i != 18 && i != 23 {
        DigitsAreLower(digits[i - DashesBefore(i)], 0);
      }
    }
    assert Canonical(id) == id;
  }

  /** And different bytes are printed differently. */
  lemma PrintedIsInjective(digits: seq<int>, others: seq<int>)
    requires AreDigits(digits) && AreDigits(others) && Printed(digits) == Printed(others)
    ensures digits == others
  {
    forall k | 0 <= k < 32
      ensures digits[k] == others[k]
    {
      var i := if k < 8 then k else if k < 12 then k + 1 else if k < 16 then k + 2 else if k < 20 then k + 3 else k + 4;
      assert i - DashesBefore(i) == k;
      assert Printed(digits)[i] == Digit(digits[k]) && Printed(others)[i] == Digit(others[k]);
      DigitsAreLower(digits[k], others[k]);
    }
  }

  // ---------- Operations ----------

  /** The saved config an agent starts with: that of its file, unless the file holds no YAML object. */
  function LoadedConfig(files: Files, id: InstanceId, isYamlObject: string -> bool): Option<string> {
    if id.uuid in files && isYamlObject(files[id.uuid]) then Some(files[id.uuid]) else None
  }

  /** Loading a file that holds no YAML object deletes it. */
  function FilesAfterLoad(files: Files, id: InstanceId, isYamlObject: string -> bool): Files {
    if id.uuid in files && !isYamlObject(files[id.uuid]) then files - {id.uuid} else files
  }

  function IdsOn<C>(r: Registry<C>, conn: C): set<InstanceId> {
    if conn in r.connections then r.connections[conn] else {}
  }

  function FoundOrCreated<C>(s: Server<C>, id: InstanceId, conn: C, isYamlObject: string -> bool): Server<C> {
    if id in s.registry.agents then s
    else
      Server(
        Registry(
          s.registry.agents[id := Entry(conn, NewEntry(LoadedConfig(s.files, id, isYamlObject)))],
          s.registry.connections[conn := IdsOn(s.registry, conn) + {id}]),
        FilesAfterLoad(s.files, id, isYamlObject))
  }

  function Disconnected<C>(r: Registry<C>, conn: C): Registry<C> {
    Registry(r.agents - IdsOn(r, conn), r.connections - {conn})
  }

  function WithState<C>(s: Server<C>, id: InstanceId, state: AgentState): Server<C>
    requires id in s.registry.agents
  {
    s.(registry := s.registry.(agents := s.registry.agents[id := s.registry.agents[id].(state := state)]))
  }

  /** A report from an agent: its entry is found or created, and takes in the report. */
  function Messaged<C>(s: Server<C>, id: InstanceId, conn: C, m: AgentToServer, display: string,
                       isYamlObject: string -> bool): Server<C>
  {
    var found := FoundOrCreated(s, id, conn, isYamlObject);
    WithState(found, id, Received(found.registry.agents[id].state, m, display))
  }

  datatype SaveResult = Accepted | InvalidId | AgentNotFound | InvalidYaml

  function SaveOutcome<C>(s: Server<C>, raw: string, text: string, isYamlObject: string -> bool): SaveResult {
    if !IsUuid(raw) then InvalidId
    else if Parse(raw) !in s.registry.agents then AgentNotFound
    else if text != "" && !isYamlObject(text) then InvalidYaml
    else Accepted
  }

  /**
   A saved text goes to the file named as the request spelled the id, an empty one deletes that file; then
   the agent is edited.
   */
  function Saved<C>(s: Server<C>, raw: string, text: string, isYamlObject: string -> bool): Server<C> {
    if SaveOutcome(s, raw, text, isYamlObject) != Accepted then s
    else
      var id := Parse(raw);
      WithState(s.(files := if text == "" then s.files - {raw} else s.files[raw := text]),
                id, Edited(s.registry.agents[id].state, text))
  }

  /** The agent's own saved text may be this: none, or a YAML object. */
  predicate IsSavable(text: string, isYamlObject: string -> bool) {
    text == "" || isYamlObject(text)
  }

  /**
   A save for a live agent under its own id goes through exactly when the text is empty or a YAML object. Then
   the agent's file holds the text, or is gone for the empty text, the agent has the text, and no other file
   or agent is touched; otherwise nothing changes.
   */
  lemma SaveGoesThroughExactlyWhen<C>(s: Server<C>, id: InstanceId, text: string, isYamlObject: string -> bool)
    requires IsAgentId(id) && id in s.registry.agents
    ensures
      var s' := Saved(s, id.uuid, text, isYamlObject);
      && (SaveOutcome(s, id.uuid, text, isYamlObject) == Accepted <==> IsSavable(text, isYamlObject))
      && (!IsSavable(text, isYamlObject) ==> SaveOutcome(s, id.uuid, text, isYamlObject) == InvalidYaml && s' == s)
      && (IsSavable(text, isYamlObject) ==>
            && (text == "" ==> id.uuid !in s'.files)
            && (text != "" ==> id.uuid in s'.files && s'.files[id.uuid] == text)
            && s'.registry.agents.Keys == s.registry.agents.Keys && s'.registry.connections == s.registry.connections
            && s'.registry.agents[id].state.customInstanceConfig == text)
      && (forall name | name != id.uuid :: name in s'.files <==> name in s.files)
      && (forall name | name != id.uuid && name in s.files :: s'.files[name] == s.files[name])
      && (forall other | other != id && other in s.registry.agents ::
            s'.registry.agents[other] == s.registry.agents[other])
  {
    var digits :| AreDigits(digits) && id.uuid == Printed(digits);
    PrintedIsCanonical(digits);
  }

  /** A save under an id that no agent has is refused as such, and so is one under what is no id at all. */
  lemma SaveRefusals<C>(s: Server<C>, raw: string, text: string, isYamlObject: string -> bool)
    ensures |raw| != 36 ==> SaveOutcome(s, raw, text, isYamlObject) == InvalidId
    ensures (exists i | 0 <= i < |raw| :: raw[i] != '-' && !IsHexDigit(raw[i])) ==>
              SaveOutcome(s, raw, text, isYamlObject) == InvalidId
    ensures IsAgentId(InstanceId(raw)) && InstanceId(raw) !in s.registry.agents ==>
              SaveOutcome(s, raw, text, isYamlObject) == AgentNotFound
    ensures SaveOutcome(s, raw, text, isYamlObject) != Accepted ==> Saved(s, raw, text, isYamlObject) == s
  {
    if digits: seq<int> :| AreDigits(digits) && raw == Printed(digits) {
      PrintedIsCanonical(digits);
    }
  }

  // ---------- Runs ----------

  datatype Action<C> =
    | Message(id: InstanceId, conn: C, message: AgentToServer, display: string)
    | Close(conn: C)
    | Save(raw: string, text: string)
    | Restart

  function After<C>(s: Server<C>, a: Action<C>, isYamlObject: string -> bool): Server<C> {
    match a
    case Message(id, conn, m, display) => Messaged(s, id, conn, m, display, isYamlObject)
    case Close(conn) => s.(registry := Disconnected(s.registry, conn))
    case Save(raw, text) => Saved(s, raw, text, isYamlObject)
    case Restart => s.(registry := Registry(map[], map[]))
  }

  function Run<C>(s: Server<C>, actions: seq<Action<C>>, isYamlObject: string -> bool): Server<C> {
    if actions == [] then s
    else After(Run(s, actions[..|actions| - 1], isYamlObject), actions[|actions| - 1], isYamlObject)
  }

  // ---------- The index ----------

  /** The index is the inverse of each agent's connection, and keeps no connection without agents. */
  ghost predicate IsIndexed<C>(r: Registry<C>) {
    && (forall id <- r.agents :: id in IdsOn(r, r.agents[id].conn))
    && (forall conn <- r.connections :: r.connections[conn] != {})
    && (forall conn <- r.connections :: forall id <- r.connections[conn] :: id in r.agents && r.agents[id].conn == conn)
  }

  /** Every run keeps the index the exact inverse of the agents' connections. */
  lemma {:induction false} RunKeepsIndex<C>(s: Server<C>, actions: seq<Action<C>>, isYamlObject: string -> bool)
    requires IsIndexed(s.registry)
    ensures IsIndexed(Run(s, actions, isYamlObject).registry)
  {
    if actions != [] {
      var before, a := actions[..|actions| - 1], actions[|actions| - 1];
      RunKeepsIndex(s, before, isYamlObject);
      ActionKeepsIndex(Run(s, before, isYamlObject), a, isYamlObject);
    }
  }

  lemma ActionKeepsIndex<C>(s: Server<C>, a: Action<C>, isYamlObject: string -> bool)
    requires IsIndexed(s.registry)
    ensures IsIndexed(After(s, a, isYamlObject).registry)
  {
    match a
    case Message(id, conn, m, display) =>
      var found := FoundOrCreated(s, id, conn, isYamlObject);
      assert IsIndexed(found.registry);
    case Close(conn) =>
    case Save(raw, text) =>
    case Restart =>
  }

  /**
   A disconnect removes exactly the agents created on that connection, wherever they reported from
   since, and leaves every other agent as it was.
   */
  lemma DisconnectRemovesExactly<C>(r: Registry<C>, conn: C)
    requires IsIndexed(r)
    ensures
      var r' := Disconnected(r, conn);
      && (forall id :: id in r'.agents <==> id in r.agents && r.agents[id].conn != conn)
      && (forall id <- r'.agents :: r'.agents[id] == r.agents[id])
      && conn !in r'.connections
      && (forall other | other in r.connections && other != conn ::
            other in r'.connections && r'.connections[other] == r.connections[other])
  {
  }

  // ---------- Saved configs ----------

  function SavedText(files: Files, id: InstanceId): string {
    if id.uuid in files then files[id.uuid] else ""
  }

  /**
   Every live agent has the config of its file, or none when there is no file, and its remote config is
   made of it.
   */
  ghost predicate MatchesFiles<C>(s: Server<C>) {
    forall id <- s.registry.agents ::
      && Agrees(s.registry.agents[id].state)
      && s.registry.agents[id].state.customInstanceConfig == SavedText(s.files, id)
  }

  predicate IsCanonicalSave<C>(a: Action<C>) {
    a.Save? ==> Canonical(a.raw) == a.raw
  }

  lemma ActionKeepsFiles<C>(s: Server<C>, a: Action<C>, isYamlObject: string -> bool)
    requires MatchesFiles(s) && IsCanonicalSave(a)
    ensures MatchesFiles(After(s, a, isYamlObject))
  {
    match a
    case Message(id, conn, m, display) =>
      assert MatchesFiles(FoundOrCreated(s, id, conn, isYamlObject));
    case Close(conn) =>
    case Save(raw, text) =>
    case Restart =>
  }

  /** In every run whose saves spell ids in canonical form, live agents and saved files agree. */
  lemma {:induction false} RunKeepsFiles<C>(s: Server<C>, actions: seq<Action<C>>, isYamlObject: string -> bool)
    requires MatchesFiles(s)
    requires forall a <- actions :: IsCanonicalSave(a)
    ensures MatchesFiles(Run(s, actions, isYamlObject))
  {
    if actions != [] {
      var before, a := actions[..|actions| - 1], actions[|actions| - 1];
      RunKeepsFiles(s, before, isYamlObject);
      ActionKeepsFiles(Run(s, before, isYamlObject), a, isYamlObject);
    }
  }

  /**
   A save keeps files and agents in agreement exactly when the request spells the id in canonical
   form, or the canonical file already held the text, or the request is refused. The file is named as
   the request spelled the id, but an agent that comes back looks for the canonical name. (A file
   that belongs to another live agent cannot be meant: its name would be canonical.)
   */
  lemma SaveKeepsFilesExactlyWhen<C>(s: Server<C>, raw: string, text: string, isYamlObject: string -> bool)
    requires MatchesFiles(s)
    requires forall id <- s.registry.agents :: Canonical(id.uuid) == id.uuid
    ensures
      MatchesFiles(Saved(s, raw, text, isYamlObject)) <==>
        || SaveOutcome(s, raw, text, isYamlObject) != Accepted
        || Canonical(raw) == raw
        || SavedText(s.files, Parse(raw)) == text
  {
    if SaveOutcome(s, raw, text, isYamlObject) == Accepted {
      if Canonical(raw) == raw {
        ActionKeepsFiles(s, Action<C>.Save(raw, text), isYamlObject);
      } else {
        MisspelledSave(s, raw, text, isYamlObject);
      }
    }
  }

  /** A save that spells the id otherwise leaves every live agent's file alone, but edits the agent. */
  lemma MisspelledSave<C>(s: Server<C>, raw: string, text: string, isYamlObject: string -> bool)
    requires MatchesFiles(s)
    requires forall id <- s.registry.agents :: Canonical(id.uuid) == id.uuid
    requires SaveOutcome(s, raw, text, isYamlObject) == Accepted && Canonical(raw) != raw
    ensures MatchesFiles(Saved(s, raw, text, isYamlObject)) <==> SavedText(s.files, Parse(raw)) == text
  {
    var s' := Saved(s, raw, text, isYamlObject);
    forall id <- s.registry.agents
      ensures SavedText(s'.files, id) == SavedText(s.files, id)
    {
      assert id.uuid != raw;
    }
    assert s'.registry.agents[Parse(raw)].state.customInstanceConfig == text;
  }

  /**
   What such a save comes to: the agent has the text until its connection closes. When it is back it has
   what the canonical file holds, as if the save had never been made.
   */
  lemma MisspelledSaveIsForgotten<C>(s: Server<C>, raw: string, text: string, conn: C, m: AgentToServer,
      display: string,
                                     isYamlObject: string -> bool)
    requires IsIndexed(s.registry)
    requires SaveOutcome(s, raw, text, isYamlObject) == Accepted && Canonical(raw) != raw
    ensures
      var id, saved := Parse(raw), Saved(s, raw, text, isYamlObject);
      var away := After(saved, Close(saved.registry.agents[id].conn), isYamlObject);
      var back := After(away, Message(id, conn, m, display), isYamlObject);
      && saved.registry.agents[id].state.customInstanceConfig == text
      && back.registry.agents[id].state.customInstanceConfig == LoadedConfig(s.files, id, isYamlObject).GetOr("")
  {
    hide Received;
    var id, saved := Parse(raw), Saved(s, raw, text, isYamlObject);
    assert IsIndexed(saved.registry);
    DisconnectRemovesExactly(saved.registry, saved.registry.agents[id].conn);
    KeepsCustomConfig(NewEntry(LoadedConfig(saved.files, id, isYamlObject)), m, display);
  }

  lemma KeepsCustomConfig(s: AgentState, m: AgentToServer, display: string)
    ensures Received(s, m, display).customInstanceConfig == s.customInstanceConfig
  {
  }

  /** An id spelled in upper case, as requests may spell it. */
  const UPPER_CASE_ID := "ABCDEF00-0000-0000-0000-000000000000"

  lemma UpperCaseIsMisspelled()
    ensures IsUuid(UPPER_CASE_ID) && Canonical(UPPER_CASE_ID) != UPPER_CASE_ID
  {
    hide Canonical;
    assert Canonical(UPPER_CASE_ID)[0] == LowerDigit('A');
  }

  /** A first save under that spelling is accepted, and lost when the agent reconnects. */
  lemma UpperCaseSaveIsLost<C>(conn: C, m: AgentToServer, display: string, text: string, isYamlObject: string -> bool)
    requires text != "" && isYamlObject(text)
    ensures
      var id := Parse(UPPER_CASE_ID);
      var s := After(Server(Registry(map[], map[]), map[]), Message(id, conn, m, display), isYamlObject);
      var saved := Saved(s, UPPER_CASE_ID, text, isYamlObject);
      var back := After(After(saved, Close(conn), isYamlObject), Message(id, conn, m, display), isYamlObject);
      && SaveOutcome(s, UPPER_CASE_ID, text, isYamlObject) == Accepted
      && saved.registry.agents[id].state.customInstanceConfig == text
      && back.registry.agents[id].state.customInstanceConfig == ""
  {
    hide Received, IsUuid, Canonical, UPPER_CASE_ID;
    var id := Parse(UPPER_CASE_ID);
    var empty: Server<C> := Server(Registry(map[], map[]), map[]);
    var s := After(empty, Message(id, conn, m, display), isYamlObject);
    ActionKeepsIndex(empty, Action<C>.Message(id, conn, m, display), isYamlObject);
    UpperCaseIsMisspelled();
    MisspelledSaveIsForgotten(s, UPPER_CASE_ID, text, conn, m, display, isYamlObject);
  }

  /** The file of an id holds a text that loading accepts, or is absent for the empty text. */
  predicate IsStored(files: Files, id: InstanceId, text: string, isYamlObject: string -> bool) {
    if text == "" then id.uuid !in files else id.uuid in files && files[id.uuid] == text && isYamlObject(text)
  }

  /** Only a save for that id touches a file that loading accepts. */
  lemma {:induction false} RunKeepsStored<C>(s: Server<C>, id: InstanceId, text: string, actions: seq<Action<C>>,
                                             isYamlObject: string -> bool)
    requires IsStored(s.files, id, text, isYamlObject)
    requires forall a <- actions | a.Save? :: a.raw != id.uuid
    ensures IsStored(Run(s, actions, isYamlObject).files, id, text, isYamlObject)
  {
    if actions != [] {
      var before, a := actions[..|actions| - 1], actions[|actions| - 1];
      RunKeepsStored(s, id, text, before, isYamlObject);
      assert a.Save? ==> a.raw != id.uuid;
    }
  }

  lemma SavedUnderCanonical(id: InstanceId)
    requires IsAgentId(id)
    ensures Canonical(id.uuid) == id.uuid
  {
    var digits :| AreDigits(digits) && id.uuid == Printed(digits);
    PrintedIsCanonical(digits);
  }

  /**
   Round trip: after a live agent's config is saved, or cleared, under its id, and through any run without a further
   save for that id (disconnects, reconnects, restarts, anything other agents do), the agent has
   exactly the saved text whenever it is live, and its remote config carries it. Saving the empty text clears
   it for good.
   */
  lemma SavedConfigSurvives<C>(s: Server<C>, id: InstanceId, text: string, actions: seq<Action<C>>,
                               isYamlObject: string -> bool)
    requires MatchesFiles(s)
    requires IsAgentId(id) && id in s.registry.agents && IsSavable(text, isYamlObject)
    requires forall a <- actions :: IsCanonicalSave(a) && (a.Save? ==> a.raw != id.uuid)
    ensures
      var s' := Run(Saved(s, id.uuid, text, isYamlObject), actions, isYamlObject);
      && SavedText(s'.files, id) == text
      && (id in s'.registry.agents ==>
            var state := s'.registry.agents[id].state;
            && state.customInstanceConfig == text
            && (text != "" ==> state.remoteConfig.Some?)
            && (state.remoteConfig.Some? ==> Delivers(state.remoteConfig.value, text)))
  {
    SaveGoesThroughExactlyWhen(s, id, text, isYamlObject);
    SavedUnderCanonical(id);
    ActionKeepsFiles(s, Action<C>.Save(id.uuid, text), isYamlObject);
    var saved := Saved(s, id.uuid, text, isYamlObject);
    RunKeepsFiles(saved, actions, isYamlObject);
    RunKeepsStored(saved, id, text, actions, isYamlObject);
  }
}
