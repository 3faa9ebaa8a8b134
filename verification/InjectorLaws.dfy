/**
 What the injector does to a pod, in terms of the pod and its annotations alone: which containers it changes, what
 they then run with, where the packages come from, and how a failure is cleaned up.
 */
module InjectorLaws {
  import opened Wrappers
  import opened GoStrings
  import opened InjectorSpec

  // ---------- Annotations as they are written ----------

  /** A Kubernetes name: lower-case letters, digits and dashes. */
  predicate IsName(s: string) {
    s != "" && forall c <- s :: 'a' <= c <= 'z' || '0' <= c <= '9' || c == '-'
  }

  /** A name as someone types it into a list, with space around it. */
  datatype Typed = Typed(before: string, name: string, after: string)
  {
    predicate Valid() {
      IsName(name) && (forall c <- before :: IsSpace(c)) && (forall c <- after :: IsSpace(c))
    }

    function Text(): string {
      before + name + after
    }
  }

  predicate AreNames(names: seq<Typed>) {
    names != [] && forall n <- names :: n.Valid()
  }

  function NameTexts(names: seq<Typed>): seq<string> {
    seq(|names|, i requires 0 <= i < |names| => names[i].Text())
  }

  predicate Names(names: seq<Typed>, name: string) {
    exists n <- names :: n.name == name
  }

  /** A container's name and the language it is said to use. */
  datatype Mapping = Mapping(container: Typed, language: Typed)
  {
    predicate Valid() {
      container.Valid() && language.Valid()
    }

    function Text(): string {
      container.Text() + ":" + language.Text()
    }
  }

  predicate AreMappings(mappings: seq<Mapping>) {
    mappings != [] && forall m <- mappings :: m.Valid()
  }

  function Texts(mappings: seq<Mapping>): seq<string> {
    seq(|mappings|, i requires 0 <= i < |mappings| => mappings[i].Text())
  }

  /** What a pod asks for: containers to leave out, containers to take, and languages, each if it is given at all. */
  datatype Wishes = Wishes(
    excluded: Option<seq<Typed>>,
    included: Option<seq<Typed>>,
    languages: Option<seq<Mapping>>)

  /** The annotations say so. */
  ghost predicate AreWritten(wishes: Wishes, annotations: map<string, string>) {
    && (wishes.excluded.Some? <==> "openlit.io/exclude-containers" in annotations)
    && (wishes.excluded.Some? ==>
          && AreNames(wishes.excluded.value)
          && annotations["openlit.io/exclude-containers"] == Join(NameTexts(wishes.excluded.value)))
    && (wishes.included.Some? <==> "openlit.io/include-containers" in annotations)
    && (wishes.included.Some? ==>
          && AreNames(wishes.included.value)
          && annotations["openlit.io/include-containers"] == Join(NameTexts(wishes.included.value)))
    && (wishes.languages.Some? <==> "openlit.io/container-languages" in annotations)
    && (wishes.languages.Some? ==>
          && AreMappings(wishes.languages.value)
          && annotations["openlit.io/container-languages"] == Join(Texts(wishes.languages.value)))
  }

  /** The language first given for the container is this one. */
  ghost predicate SaysLanguage(mappings: seq<Mapping>, container: string, language: string) {
    exists k | 0 <= k < |mappings| ::
      && mappings[k].container.name == container && mappings[k].language.name == language
      && forall j | 0 <= j < k :: mappings[j].container.name != container
  }

  ghost predicate Allows(wishes: Wishes, name: string) {
    && (wishes.excluded.Some? ==> !Names(wishes.excluded.value, name))
    && (wishes.included.Some? ==> Names(wishes.included.value, name))
    && (wishes.languages.Some? ==>
          forall language | SaysLanguage(wishes.languages.value, name, language) :: language == "python")
  }

  // ---------- Reading them ----------

  lemma {:induction false} SplitUndoesJoin(parts: seq<string>)
    requires parts != [] && forall p <- parts :: ',' !in p
    ensures Split(Join(parts), ',') == parts
  {
    assert parts[0] in parts;
    if |parts| == 1 {
      SplitPart(parts[0], "", ',');
    } else {
      assert forall p <- parts[1..] :: p in parts;
      SplitUndoesJoin(parts[1..]);
      SplitPart(parts[0], Join(parts[1..]), ',');
      assert Join(parts) == parts[0] + [','] + Join(parts[1..]);
    }
  }

  lemma NameIsPlain(s: string)
    requires IsName(s)
    ensures !IsSpace(s[0]) && !IsSpace(s[|s| - 1]) && ',' !in s && ':' !in s
  {
    assert s[0] in s && s[|s| - 1] in s;
  }

  lemma TypedIsTrimmed(n: Typed)
    requires n.Valid()
    ensures TrimSpace(n.Text()) == n.name && ',' !in n.Text() && ':' !in n.Text()
  {
    NameIsPlain(n.name);
    TrimsSpace(n.before, n.name, n.after);
  }

  lemma ListsExactly(names: seq<Typed>, name: string)
    requires AreNames(names)
    ensures Lists(Join(NameTexts(names)), name) <==> Names(names, name)
  {
    var texts := NameTexts(names);
    forall i | 0 <= i < |names|
      ensures TrimSpace(texts[i]) == names[i].name && ',' !in texts[i]
    {
      assert names[i] in names;
      TypedIsTrimmed(names[i]);
    }
    SplitUndoesJoin(texts);
    hide TrimSpace;
    if Names(names, name) {
      var n :| n in names && n.name == name;
      var i :| 0 <= i < |names| && names[i] == n;
      assert texts[i] in texts;
    }
  }

  lemma MappingIsRead(m: Mapping)
    requires m.Valid()
    ensures ',' !in m.Text()
    ensures
      var parts := Split(TrimSpace(m.Text()), ':');
      |parts| == 2 && TrimSpace(parts[0]) == m.container.name && TrimSpace(parts[1]) == m.language.name
  {
    hide TrimSpace, Split;
    var c, l := m.container, m.language;
    NameIsPlain(c.name);
    NameIsPlain(l.name);
    var core := c.name + c.after + ":" + l.before + l.name;
    assert core[0] == c.name[0] && core[|core| - 1] == l.name[|l.name| - 1];
    assert m.Text() == c.before + core + l.after;
    TrimsSpace(c.before, core, l.after);
    var left, right := c.name + c.after, l.before + l.name;
    assert core == left + [':'] + right;
    SplitPart(left, right, ':');
    SplitPart(right, "", ':');
    TrimsSpace("", c.name, c.after);
    TrimsSpace(l.before, l.name, "");
    assert "" + c.name + c.after == left && l.before + l.name + "" == right;
  }

  lemma {:induction false} MappedExactly(mappings: seq<Mapping>, name: string)
    requires forall m <- mappings :: m.Valid()
    ensures
      var mapped := MappedLanguage(Texts(mappings), name);
      && (mapped == "" <==> forall m <- mappings :: m.container.name != name)
      && forall language :: SaysLanguage(mappings, name, language) <==> mapped == language && language != ""
    decreases |mappings|
  {
    if mappings != [] {
      var first, rest := mappings[0], mappings[1..];
      assert first in mappings && forall m <- rest :: m in mappings;
      MappingIsRead(first);
      MappedExactly(rest, name);
      assert Texts(mappings)[0] == first.Text() && Texts(mappings)[1..] == Texts(rest);
      forall language
        ensures SaysLanguage(mappings, name, language) <==>
                if first.container.name == name then first.language.name == language
                else SaysLanguage(rest, name, language)
      {
        SaysLanguageTail(mappings, name, language);
      }
      assert forall m <- mappings :: m == first || m in rest;
    }
  }

  lemma SaysLanguageTail(mappings: seq<Mapping>, name: string, language: string)
    requires mappings != []
    ensures SaysLanguage(mappings, name, language) <==>
            if mappings[0].container.name == name then mappings[0].language.name == language
            else SaysLanguage(mappings[1..], name, language)
  {
    var rest := mappings[1..];
    if mappings[0].container.name != name {
      if SaysLanguage(mappings, name, language) {
        var k :| 0 <= k < |mappings| && mappings[k].container.name == name && mappings[k].language.name == language &&
          forall j | 0 <= j < k :: mappings[j].container.name != name;
        assert rest[k - 1] == mappings[k];
        assert forall j | 0 <= j < k - 1 :: rest[j] == mappings[j + 1];
      }
      if SaysLanguage(rest, name, language) {
        var k :| 0 <= k < |rest| && rest[k].container.name == name && rest[k].language.name == language &&
          forall j | 0 <= j < k :: rest[j].container.name != name;
        assert mappings[k + 1] == rest[k];
        assert forall j | 0 < j < k + 1 :: mappings[j] == rest[j - 1];
      }
    }
  }

  lemma AllowsExactly(wishes: Wishes, annotations: map<string, string>, name: string)
    requires AreWritten(wishes, annotations)
    ensures AnnotationsAllow(annotations, name) <==> Allows(wishes, name)
  {
    if wishes.excluded.Some? {
      ListsExactly(wishes.excluded.value, name);
    }
    if wishes.included.Some? {
      ListsExactly(wishes.included.value, name);
    }
    if wishes.languages.Some? {
      var mappings := wishes.languages.value;
      var texts := Texts(mappings);
      forall t <- texts
        ensures ',' !in t
      {
        var i :| 0 <= i < |texts| && texts[i] == t;
        assert mappings[i] in mappings;
        MappingIsRead(mappings[i]);
      }
      SplitUndoesJoin(texts);
      MappedExactly(mappings, name);
      var mapped := MappedLanguage(texts, name);
      assert mapped != "" ==> SaysLanguage(mappings, name, mapped);
    }
  }

  // ---------- Which containers are changed ----------

  /** The word stands in the text from this place on, in letters of either case. */
  predicate ReadsAt(text: string, word: string, i: int) {
    0 <= i && i + |word| <= |text| && forall k | 0 <= k < |word| :: Lower(text[i + k]) == word[k]
  }

  ghost predicate Mentions(text: string, words: seq<string>) {
    exists word: string, i: int :: word in words && ReadsAt(text, word, i)
  }

  /** The image, a variable or an argument shows a Python program. */
  ghost predicate LooksLikePython(c: Container) {
    || Mentions(c.image, PYTHON_IMAGE_PATTERNS)
    || (exists e <- c.env, prefix <- PYTHON_ENV_PREFIXES :: prefix <= e.name)
    || (exists arg <- c.command + c.args :: Mentions(arg, PYTHON_ARG_PATTERNS))
  }

  /**
   A Python container that the pod's wishes allow, and that is neither a sidecar nor a utility by its name
   and image.
   */
  ghost predicate IsMeant(wishes: Wishes, c: Container) {
    && Allows(wishes, c.name)
    && !Mentions(c.name, SIDECAR_PATTERNS)
    && !Mentions(c.image, INIT_PATTERNS)
    && LooksLikePython(c)
  }

  /**
   No container has a read-only root filesystem, the restricted standard is not enforced, and an image is
   configured.
   */
  predicate CanInject(config: InjectorConfig, annotations: map<string, string>, spec: PodSpec) {
    && (forall c <- spec.containers :: c.readOnlyRootFilesystem != Some(true))
    && !("pod-security.kubernetes.io/enforce" in annotations
         && annotations["pod-security.kubernetes.io/enforce"] == "restricted")
    && (config.customInitImage != "" || config.initContainerImage != "")
  }

  /** The container mounts no volume of the name the injector uses. */
  predicate IsUnmounted(config: InjectorConfig, c: Container) {
    forall m <- c.volumeMounts ::
      m.name != if config.sharedVolumeName == "" then "instrumentation-packages" else config.sharedVolumeName
  }

  /** A container is changed if and only if it is meant and does not mount the volume, and the pod can be injected. */
  ghost predicate ChangesExactlyMeant(config: InjectorConfig, annotations: map<string, string>, spec: PodSpec,
                                      spec': PodSpec, wishes: Wishes)
  {
    && |spec'.containers| == |spec.containers|
    && forall i | 0 <= i < |spec.containers| ::
         spec'.containers[i] != spec.containers[i] <==>
         && CanInject(config, annotations, spec)
         && IsMeant(wishes, spec.containers[i]) && IsUnmounted(config, spec.containers[i])
  }

  lemma MentionsExactly(text: string, words: seq<string>)
    ensures ContainsAny(ToLower(text), words) <==> Mentions(text, words)
  {
    LoweredAt(text);
    var lower := ToLower(text);
    forall word <- words
      ensures Contains(lower, word) <==> exists i: int :: ReadsAt(text, word, i)
    {
      if i :| 0 <= i <= |lower| && word <= lower[i..] {
        assert forall k | 0 <= k < |word| :: word[k] == lower[i..][k] == lower[i + k];
        assert ReadsAt(text, word, i);
      }
      if i: int :| ReadsAt(text, word, i) {
        assert lower[i..][..|word|] == word;
      }
    }
  }

  lemma SelectsExactly(wishes: Wishes, meta: PodMeta, c: Container)
    requires AreWritten(wishes, meta.annotations)
    ensures ShouldInstrument(meta, c) <==> IsMeant(wishes, c)
  {
    AllowsExactly(wishes, meta.annotations, c.name);
    MentionsExactly(c.name, SIDECAR_PATTERNS);
    MentionsExactly(c.image, INIT_PATTERNS);
    MentionsExactly(c.image, PYTHON_IMAGE_PATTERNS);
    forall arg <- c.command + c.args
      ensures ContainsAny(ToLower(arg), PYTHON_ARG_PATTERNS) <==> Mentions(arg, PYTHON_ARG_PATTERNS)
    {
      MentionsExactly(arg, PYTHON_ARG_PATTERNS);
    }
    hide AnnotationsAllow, ContainsAny, ToLower, Mentions, Allows;
    assert IsPythonContainer(c) <==> LooksLikePython(c);
  }

  /**
   Which containers a call changes: exactly those meant by the pod's wishes that do not mount the shared volume
   yet, if the pod can be injected at all. The call succeeds exactly when there is one.
   */
  lemma ChangedExactlyWhen(config: InjectorConfig, meta: PodMeta, spec: PodSpec, wishes: Wishes)
    requires AreWritten(wishes, meta.annotations)
    ensures ChangesExactlyMeant(config, meta.annotations, spec, Outcome(config, meta, spec), wishes)
    ensures Succeeds(config, meta, spec) <==>
              && CanInject(config, meta.annotations, spec)
              && exists c <- spec.containers :: IsMeant(wishes, c) && IsUnmounted(config, c)
  {
    hide ShouldInstrument, IsMeant, Instrumented, InitContainer;
    forall c <- spec.containers
      ensures IsTarget(config, meta, c) <==> IsMeant(wishes, c) && IsUnmounted(config, c)
      ensures Instrumented(config, meta, c) != c
    {
      SelectsExactly(wishes, meta, c);
      InstrumentingOnlyAdds(config, meta, c);
    }
    SucceedsExactly(config, meta, spec);
  }

  lemma SucceedsExactly(config: InjectorConfig, meta: PodMeta, spec: PodSpec)
    ensures Succeeds(config, meta, spec) <==>
              CanInject(config, meta.annotations, spec) && HasTarget(config, meta, spec.containers)
  {
  }

  /** A call that succeeds changes the pod, and one that fails does not. */
  lemma SucceedsExactlyWhenChanged(config: InjectorConfig, meta: PodMeta, spec: PodSpec)
    ensures Succeeds(config, meta, spec) <==> Outcome(config, meta, spec) != spec
  {
    if Succeeds(config, meta, spec) {
      assert |Injected(config, meta, spec).initContainers| > |spec.initContainers|;
    }
  }

  /**
   So a pod's wishes are obeyed: a container left out by name, not among those to take, said to use another
   language or named like a sidecar is left exactly as it was.
   */
  lemma WishesAreObeyed(config: InjectorConfig, meta: PodMeta, spec: PodSpec, wishes: Wishes, i: nat)
    requires AreWritten(wishes, meta.annotations) && i < |spec.containers|
    requires
      var name := spec.containers[i].name;
      || (wishes.excluded.Some? && Names(wishes.excluded.value, name))
      || (wishes.included.Some? && !Names(wishes.included.value, name))
      || (wishes.languages.Some? &&
            exists language :: language != "python" && SaysLanguage(wishes.languages.value, name, language))
      || (exists word: string, place: int :: word in SIDECAR_PATTERNS && ReadsAt(name, word, place))
    ensures
      var spec' := Outcome(config, meta, spec);
      |spec'.containers| == |spec.containers| && spec'.containers[i] == spec.containers[i]
  {
    hide SIDECAR_PATTERNS, ReadsAt;
    ChangedExactlyWhen(config, meta, spec, wishes);
  }

  /** And an ordinary Python container of a pod without wishes is changed. */
  lemma PlainPythonIsChanged(config: InjectorConfig, meta: PodMeta, spec: PodSpec, i: nat)
    requires meta.annotations == map[] && i < |spec.containers| && CanInject(config, map[], spec)
    requires spec.containers[i].name == "app" && spec.containers[i].image == "python"
    requires spec.containers[i].volumeMounts == []
    ensures
      var spec' := Outcome(config, meta, spec);
      |spec'.containers| == |spec.containers| && spec'.containers[i] != spec.containers[i]
  {
    hide Mentions, SIDECAR_PATTERNS, INIT_PATTERNS, PYTHON_IMAGE_PATTERNS, CanInject, Outcome;
    var wishes := Wishes(None, None, None);
    ChangedExactlyWhen(config, meta, spec, wishes);
    AppIsNoSidecar();
    PythonIsNoUtility();
    PythonIsPython();
  }

  lemma AppIsNoSidecar()
    ensures !Mentions("app", SIDECAR_PATTERNS)
  {
    assert forall word <- SIDECAR_PATTERNS :: |word| > 3;
  }

  lemma PythonIsPython()
    ensures Mentions("python", PYTHON_IMAGE_PATTERNS)
  {
    assert PYTHON_IMAGE_PATTERNS[0] == "python" && ReadsAt("python", "python", 0);
  }

  /** The letters that the images of utilities begin with; none of them is in "python". */
  const UTILITY_LETTERS := {'b', 'a', 's', 'k', 'r'}

  lemma PythonIsNoUtility()
    ensures !Mentions("python", INIT_PATTERNS)
  {
    UtilityLetters();
    hide INIT_PATTERNS, UTILITY_LETTERS;
    forall word: string, i: int | word in INIT_PATTERNS
      ensures !ReadsAt("python", word, i)
    {
      NoUtilityLetter(i);
      OtherFirstLetter("python", word, i);
    }
  }

  lemma OtherFirstLetter(text: string, word: string, i: int)
    requires |word| > 0 && (0 <= i < |text| ==> Lower(text[i]) != word[0])
    ensures !ReadsAt(text, word, i)
  {
    if 0 <= i < |text| {
      assert Lower(text[i + 0]) != word[0];
    }
  }

  lemma UtilityLetters()
    ensures forall word <- INIT_PATTERNS :: |word| > 0 && word[0] in UTILITY_LETTERS
  {
  }

  lemma NoUtilityLetter(i: int)
    ensures 0 <= i < 6 ==> Lower("python"[i]) !in UTILITY_LETTERS
  {
  }

  // ---------- What a changed container runs with ----------

  /** What the container sees under that name: the value of the last variable of the name. */
  ghost predicate Gives(env: seq<EnvVar>, name: string, value: string) {
    exists k | 0 <= k < |env| :: env[k] == EnvVar(name, value) && forall j | k < j < |env| :: env[j].name != name
  }

  ghost predicate IsGiven(env: seq<EnvVar>, name: string) {
    exists e <- env :: e.name == name
  }

  /** The first value of a variable, as Python's search path is looked up. */
  ghost predicate FirstGives(env: seq<EnvVar>, name: string, value: string) {
    exists k | 0 <= k < |env| :: env[k] == EnvVar(name, value) && forall j | 0 <= j < k :: env[j].name != name
  }

  /** The variables an injection sets; the last three only in some cases. */
  const VARIABLES := [
    "PYTHONPATH", "OTEL_EXPORTER_OTLP_ENDPOINT", "OTEL_EXPORTER_OTLP_HEADERS", "OTEL_SERVICE_NAME",
    "OTEL_SERVICE_NAMESPACE", "OTEL_DEPLOYMENT_ENVIRONMENT", "OTEL_RESOURCE_ATTRIBUTES", "OTEL_SERVICE_VERSION",
    "OTEL_INSTRUMENTATION_GENAI_CAPTURE_MESSAGE_CONTENT", "OTEL_SERVICE_INSTANCE_ID", "OPENLIT_DETAILED_TRACING",
    "CUSTOM_PACKAGES"]

  /** By their lengths and their sixth letters the names differ. */
  function Key(name: string): (nat, char) {
    (|name|, if 5 < |name| < 30 then name[5] else ' ')
  }

  const KEYS := [
    (10, 'N'), (27, 'E'), (26, 'E'), (17, 'S'), (22, 'S'), (27, 'D'), (24, 'R'), (20, 'S'), (50, ' '), (24, 'S'),
    (24, 'I'), (15, 'M')]

  lemma KeysOfVariables()
    ensures |VARIABLES| == |KEYS| == 12
    ensures forall i | 0 <= i < 12 :: Key(VARIABLES[i]) == KEYS[i]
  {
    assert Key(VARIABLES[0]) == KEYS[0];
    assert Key(VARIABLES[1]) == KEYS[1];
    assert Key(VARIABLES[2]) == KEYS[2];
    assert Key(VARIABLES[3]) == KEYS[3];
    assert Key(VARIABLES[4]) == KEYS[4];
    assert Key(VARIABLES[5]) == KEYS[5];
    assert Key(VARIABLES[6]) == KEYS[6];
    assert Key(VARIABLES[7]) == KEYS[7];
    assert Key(VARIABLES[8]) == KEYS[8];
    assert Key(VARIABLES[9]) == KEYS[9];
    assert Key(VARIABLES[10]) == KEYS[10];
    assert Key(VARIABLES[11]) == KEYS[11];
  }

  lemma VariablesDiffer()
    ensures |VARIABLES| == 12 && forall i, j | 0 <= i < 12 && 0 <= j < 12 && i != j :: VARIABLES[i] != VARIABLES[j]
  {
    KeysOfVariables();
    hide VARIABLES;
    assert forall i, j | 0 <= i < 12 && 0 <= j < 12 && i != j :: KEYS[i] != KEYS[j];
  }

  lemma {:induction false} FirstPythonPathIs(env: seq<EnvVar>, value: string)
    ensures FirstGives(env, "PYTHONPATH", value) ==> FirstPythonPath(env) == value
    ensures !IsGiven(env, "PYTHONPATH") ==> FirstPythonPath(env) == ""
  {
    if env != [] {
      var rest := env[1..];
      assert env[0] in env && forall e <- rest :: e in env;
      FirstPythonPathIs(rest, value);
      if FirstGives(env, "PYTHONPATH", value) {
        var k :| 0 <= k < |env| && env[k] == EnvVar("PYTHONPATH", value) &&
          forall j | 0 <= j < k :: env[j].name != "PYTHONPATH";
        if k > 0 {
          assert rest[k - 1] == env[k] && forall j | 0 <= j < k - 1 :: rest[j] == env[j + 1];
        }
      }
    }
  }

  lemma AddedIsGiven(env: seq<EnvVar>, added: seq<EnvVar>, e: EnvVar)
    requires e in added && forall i, j | 0 <= i < j < |added| :: added[i].name != added[j].name
    ensures Gives(env + added, e.name, e.value)
  {
    var k :| 0 <= k < |added| && added[k] == e;
    var all := env + added;
    assert all[|env| + k] == e;
    assert forall j | |env| + k < j < |all| :: all[j] == added[j - |env|];
  }

  lemma OthersAreKept(env: seq<EnvVar>, added: seq<EnvVar>, name: string, value: string)
    requires !IsGiven(added, name)
    ensures Gives(env + added, name, value) <==> Gives(env, name, value)
  {
    var all := env + added;
    assert forall j | |env| <= j < |all| :: all[j] == added[j - |env|] && all[j] in added;
    if k :| 0 <= k < |env| && env[k] == EnvVar(name, value) && forall j | k < j < |env| :: env[j].name != name {
      assert all[k] == env[k] && forall j | k < j < |env| :: all[j] == env[j];
    }
    if k :| 0 <= k < |all| && all[k] == EnvVar(name, value) && forall j | k < j < |all| :: all[j].name != name {
      assert k < |env| && forall j | k < j < |env| :: all[j] == env[j];
    }
  }

  lemma StandardNames(config: InjectorConfig, meta: PodMeta, c: Container)
    ensures
      var standard := StandardVariables(config, meta, c);
      |standard| == 9 <= |VARIABLES| && forall j | 0 <= j < 9 :: standard[j].name == VARIABLES[j]
  {
    var standard := StandardVariables(config, meta, c);
    assert standard[0].name == VARIABLES[0] && standard[1].name == VARIABLES[1] && standard[2].name == VARIABLES[2];
    assert standard[3].name == VARIABLES[3] && standard[4].name == VARIABLES[4] && standard[5].name == VARIABLES[5];
    assert standard[6].name == VARIABLES[6] && standard[7].name == VARIABLES[7] && standard[8].name == VARIABLES[8];
  }

  /** The optional variables: each is set exactly in its case. */
  lemma OptionalAre(config: InjectorConfig, meta: PodMeta, c: Container)
    ensures
      var optional := OptionalVariables(config, meta, c);
      && |VARIABLES| == 12
      && (forall e :: e in optional <==>
            || (InstanceId(meta, c) != "" && e == EnvVar(VARIABLES[9], InstanceId(meta, c)))
            || (config.detailedTracing && e == EnvVar(VARIABLES[10], "true"))
            || (config.customPackages != "" && e == EnvVar(VARIABLES[11], config.customPackages)))
      && (forall i, j | 0 <= i < j < |optional| :: optional[i].name != optional[j].name)
  {
    VariablesDiffer();
    assert VARIABLES[9] == "OTEL_SERVICE_INSTANCE_ID";
    assert VARIABLES[10] == "OPENLIT_DETAILED_TRACING";
    assert VARIABLES[11] == "CUSTOM_PACKAGES";
    hide VARIABLES;
  }

  lemma AddedDiffer(config: InjectorConfig, meta: PodMeta, c: Container)
    ensures
      var added := EnvironmentVariables(config, meta, c);
      forall i, j | 0 <= i < j < |added| :: added[i].name != added[j].name
  {
    VariablesDiffer();
    StandardNames(config, meta, c);
    OptionalAre(config, meta, c);
    hide VARIABLES, StandardVariables, OptionalVariables;
    var standard, optional := StandardVariables(config, meta, c), OptionalVariables(config, meta, c);
    assert forall j | 0 <= j < |optional| :: optional[j] in optional;
    assert forall j | 9 <= j < 9 + |optional| :: (standard + optional)[j] == optional[j - 9];
  }

  lemma StandardIsGiven(config: InjectorConfig, meta: PodMeta, c: Container, k: nat)
    requires k < 9 <= |VARIABLES|
    ensures
      Gives(Instrumented(config, meta, c).env, VARIABLES[k], StandardVariables(config, meta, c)[k].value)
  {
    AddedDiffer(config, meta, c);
    StandardNames(config, meta, c);
    hide VARIABLES, StandardVariables, OptionalVariables, Gives;
    var added := EnvironmentVariables(config, meta, c);
    assert added[k] == StandardVariables(config, meta, c)[k];
    AddedIsGiven(c.env, added, added[k]);
  }

  /** A changed container exports where the config says, under its own identity. */
  lemma ExportsAsConfigured(config: InjectorConfig, meta: PodMeta, c: Container)
    ensures
      var env := Instrumented(config, meta, c).env;
      && Gives(env, "OTEL_EXPORTER_OTLP_ENDPOINT", config.otlpEndpoint)
      && Gives(env, "OTEL_EXPORTER_OTLP_HEADERS", config.otlpHeaders)
      && Gives(env, "OTEL_SERVICE_NAME", meta.serviceName(c.name))
      && Gives(env, "OTEL_SERVICE_NAMESPACE", meta.serviceNamespace)
      && Gives(env, "OTEL_SERVICE_VERSION", meta.serviceVersion)
      && Gives(env, "OTEL_DEPLOYMENT_ENVIRONMENT",
               if config.environment == "" then "kubernetes" else config.environment)
      && Gives(env, "OTEL_INSTRUMENTATION_GENAI_CAPTURE_MESSAGE_CONTENT",
               if config.captureMessageContent then "true" else "false")
  {
    hide Gives, Instrumented, Join, FirstPythonPath;
    StandardIsGiven(config, meta, c, 1);
    StandardIsGiven(config, meta, c, 2);
    StandardIsGiven(config, meta, c, 3);
    StandardIsGiven(config, meta, c, 4);
    StandardIsGiven(config, meta, c, 5);
    StandardIsGiven(config, meta, c, 7);
    StandardIsGiven(config, meta, c, 8);
  }

  /** It says of itself, as one list, what service it is, and which instance once the pod has a name. */
  lemma DescribesItself(config: InjectorConfig, meta: PodMeta, c: Container)
    ensures
      var environment := if config.environment == "" then "kubernetes" else config.environment;
      var attributes :=
        ["service.name=" + meta.serviceName(c.name), "service.namespace=" + meta.serviceNamespace,
         "deployment.environment=" + environment]
        + (if meta.serviceVersion == "" then [] else ["service.version=" + meta.serviceVersion])
        + (if meta.name == "" then [] else ["service.instance.id=" + meta.serviceInstanceId(c.name)]);
      exists value ::
        && Gives(Instrumented(config, meta, c).env, "OTEL_RESOURCE_ATTRIBUTES", value)
        && ((forall a <- attributes :: ',' !in a) ==> Split(value, ',') == attributes)
  {
    hide Gives, Instrumented, FirstPythonPath;
    StandardIsGiven(config, meta, c, 6);
    var attributes := ResourceAttributes(config, meta, c);
    if forall a <- attributes :: ',' !in a {
      SplitUndoesJoin(attributes);
    }
    assert Gives(Instrumented(config, meta, c).env, "OTEL_RESOURCE_ATTRIBUTES", Join(attributes));
  }

  /** It looks for packages on the shared path first, and then where it looked before. */
  lemma SearchesSharedPathFirst(config: InjectorConfig, meta: PodMeta, c: Container, before: string)
    requires FirstGives(c.env, "PYTHONPATH", before) || (before == "" && !IsGiven(c.env, "PYTHONPATH"))
    ensures
      var path := if config.sharedVolumePath == "" then "/instrumentation-packages" else config.sharedVolumePath;
      Gives(Instrumented(config, meta, c).env, "PYTHONPATH", if before == "" then path else path + ":" + before)
  {
    FirstPythonPathIs(c.env, before);
    hide Gives, Instrumented, Join, FirstPythonPath;
    StandardIsGiven(config, meta, c, 0);
    var path := config.GetSharedVolumePath();
    assert path + "" == path && path + (":" + before) == path + ":" + before;
  }

  /** The optional variables are set exactly when they are configured, and every other variable is as it was. */
  lemma OthersAreAsBefore(config: InjectorConfig, meta: PodMeta, c: Container, name: string, value: string)
    ensures
      var env := Instrumented(config, meta, c).env;
      && (meta.name != "" && meta.serviceInstanceId(c.name) != "" ==>
            Gives(env, "OTEL_SERVICE_INSTANCE_ID", meta.serviceInstanceId(c.name)))
      && (config.detailedTracing ==> Gives(env, "OPENLIT_DETAILED_TRACING", "true"))
      && (config.customPackages != "" ==> Gives(env, "CUSTOM_PACKAGES", config.customPackages))
      && (|| name !in VARIABLES
          || (name == "OTEL_SERVICE_INSTANCE_ID" && (meta.name == "" || meta.serviceInstanceId(c.name) == ""))
          || (name == "OPENLIT_DETAILED_TRACING" && !config.detailedTracing)
          || (name == "CUSTOM_PACKAGES" && config.customPackages == "") ==>
            (Gives(env, name, value) <==> Gives(c.env, name, value)))
  {
    AddedDiffer(config, meta, c);
    StandardNames(config, meta, c);
    OptionalAre(config, meta, c);
    VariablesDiffer();
    assert VARIABLES[9] == "OTEL_SERVICE_INSTANCE_ID";
    assert VARIABLES[10] == "OPENLIT_DETAILED_TRACING";
    assert VARIABLES[11] == "CUSTOM_PACKAGES";
    hide VARIABLES, StandardVariables, OptionalVariables, Gives;
    var added, optional := EnvironmentVariables(config, meta, c), OptionalVariables(config, meta, c);
    forall e <- optional
      ensures Gives(c.env + added, e.name, e.value)
    {
      assert e in added;
      AddedIsGiven(c.env, added, e);
    }
    if InstanceId(meta, c) != "" {
      assert EnvVar(VARIABLES[9], InstanceId(meta, c)) in optional;
    }
    if config.detailedTracing {
      assert EnvVar(VARIABLES[10], "true") in optional;
    }
    if config.customPackages != "" {
      assert EnvVar(VARIABLES[11], config.customPackages) in optional;
    }
    if !IsGiven(added, name) {
      OthersAreKept(c.env, added, name, value);
    } else {
      GivenIsListed(config, meta, c, name);
    }
  }

  lemma GivenIsListed(config: InjectorConfig, meta: PodMeta, c: Container, name: string)
    requires IsGiven(EnvironmentVariables(config, meta, c), name)
    ensures
      || (exists k | 0 <= k < 9 <= |VARIABLES| :: name == VARIABLES[k])
      || (exists e <- OptionalVariables(config, meta, c) :: e.name == name)
  {
    StandardNames(config, meta, c);
    hide VARIABLES, StandardVariables, OptionalVariables;
    var e :| e in EnvironmentVariables(config, meta, c) && e.name == name;
  }

  // ---------- Where the packages come from ----------

  /** The volume's name and the directory, as configured or by default. */
  function SharedVolume(config: InjectorConfig): (string, string) {
    (if config.sharedVolumeName == "" then "instrumentation-packages" else config.sharedVolumeName,
     if config.sharedVolumePath == "" then "/instrumentation-packages" else config.sharedVolumePath)
  }

  /**
   The init container is the last, runs the install command in a shell, from the custom image if there is
   one, and may write to the shared directory.
   */
  lemma PackagesAreInstalled(config: InjectorConfig, meta: PodMeta, spec: PodSpec)
    requires Succeeds(config, meta, spec)
    ensures
      var inits, (name, path) := Outcome(config, meta, spec).initContainers, SharedVolume(config);
      && |inits| == |spec.initContainers| + 1
      && inits[..|spec.initContainers|] == spec.initContainers
      && var init := inits[|spec.initContainers|];
         && init.image == (if config.customInitImage == "" then config.initContainerImage else config.customInitImage)
         && init.command + init.args == ["/bin/sh", "-c", config.installCommand]
         && init.imagePullPolicy == config.imagePullPolicy
         && init.env == [EnvVar("INSTRUMENTATION_PROVIDER", config.provider)]
         && init.volumeMounts == [VolumeMount(name, path, false)]
  {
    hide HasTarget;
  }

  /** The pod then has that volume, and each changed container reads from the same directory of it. */
  lemma PackagesAreShared(config: InjectorConfig, meta: PodMeta, spec: PodSpec)
    requires Succeeds(config, meta, spec)
    ensures
      var spec', (name, path) := Outcome(config, meta, spec), SharedVolume(config);
      && (exists v <- spec'.volumes :: v.name == name)
      && (forall v <- spec'.volumes :: v in spec.volumes || v == Volume(name, EmptyDir))
      && (forall v <- spec.volumes :: v in spec'.volumes)
      && |spec'.containers| == |spec.containers|
      && (forall i | 0 <= i < |spec.containers| ::
            spec'.containers[i] == spec.containers[i] ||
            spec'.containers[i].volumeMounts == spec.containers[i].volumeMounts + [VolumeMount(name, path, true)])
  {
    hide ShouldInstrument, EnvironmentVariables;
    InjectionOnlyAdds(config, meta, spec);
  }

  // ---------- Cleaning up ----------

  /** Cutting a container back to its former counts undoes what instrumenting it added. */
  lemma CutBackUndoesInstrumenting(config: InjectorConfig, meta: PodMeta, c: Container)
    ensures CutBack(Instrumented(config, meta, c), |c.env|, |c.volumeMounts|) == c
    ensures CutBack(c, |c.env|, |c.volumeMounts|) == c
  {
    hide EnvironmentVariables;
    var c' := Instrumented(config, meta, c);
    InstrumentingOnlyAdds(config, meta, c);
    assert c'.env[..|c.env|] == c.env && c'.volumeMounts[..|c.volumeMounts|] == c.volumeMounts;
  }

  ghost predicate Says(text: string, phrase: string) {
    exists before: string, after: string :: text == before + phrase + after
  }

  /** How a failure is cleaned up: undone as a whole, left as it is, or cleaned in part, by what the error says. */
  lemma CleanedUpBy(count: nat, partialFailure: bool, error: string)
    ensures
      var strategy := RecoveryStrategy(count, partialFailure, error);
      var validating := Says(error, "security context") || Says(error, "validation failed");
      && (strategy == FullRollback <==> count == 0 || validating)
      && (strategy == LeavePartial <==>
            && count > 0 && !validating && !partialFailure
            && !Says(error, "failed to modify containers")
            && (Says(error, "init container") || Says(error, "shared volume")))
  {
    SaysContains(error, "security context");
    SaysContains(error, "validation failed");
    SaysContains(error, "failed to modify containers");
    SaysContains(error, "init container");
    SaysContains(error, "shared volume");
    hide Says, Contains;
  }

  lemma SaysContains(text: string, phrase: string)
    ensures Contains(text, phrase) <==> Says(text, phrase)
  {
    if i :| 0 <= i <= |text| && phrase <= text[i..] {
      assert text == text[..i] + phrase + text[i..][|phrase|..];
    }
    if before: string, after: string :| text == before + phrase + after {
      assert text[|before|..] == phrase + after;
      assert phrase <= text[|before|..];
    }
  }
}
