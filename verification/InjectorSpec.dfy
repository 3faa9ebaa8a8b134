/**
 What one injection does to a pod's spec, as functions on values: which containers are selected, what
 is added to them, when the injection succeeds, and what the two ways of cleaning up leave.
 */
module InjectorSpec {
  import opened Wrappers
  import opened GoStrings

  datatype EnvVar = EnvVar(name: string, value: string)

  datatype VolumeMount = VolumeMount(name: string, mountPath: string, readOnly: bool)

  datatype Volume = Volume(name: string, source: VolumeSource)

  datatype VolumeSource = EmptyDir | OtherSource(description: string)

  datatype Container = Container(
    name: string,
    image: string,
    imagePullPolicy: string,
    command: seq<string>,
    args: seq<string>,
    env: seq<EnvVar>,
    volumeMounts: seq<VolumeMount>,
    resources: string,
    readOnlyRootFilesystem: Option<bool>)

  datatype PodSpec = PodSpec(initContainers: seq<Container>, containers: seq<Container>, volumes: seq<Volume>)

  /**
   What the injector reads of the pod besides its spec. The OpenTelemetry service names are given as
   functions of the container's name.
   */
  datatype PodMeta = PodMeta(
    name: string,
    annotations: map<string, string>,
    serviceName: string -> string,
    serviceNamespace: string,
    serviceVersion: string,
    serviceInstanceId: string -> string)

  datatype InjectorConfig = InjectorConfig(
    provider: string,
    otlpEndpoint: string,
    otlpHeaders: string,
    environment: string,
    imagePullPolicy: string,
    customPackages: string,
    customInitImage: string,
    initContainerImage: string,
    captureMessageContent: bool,
    detailedTracing: bool,
    sharedVolumeName: string,
    sharedVolumePath: string,
    installCommand: string)
  {
    function GetInitContainerImage(): string {
      if customInitImage != "" then customInitImage else initContainerImage
    }

    function GetContainerName(): string {
      if provider == "" then "auto-instrumentation" else "auto-instrumentation-" + provider
    }

    function GetSharedVolumeName(): string {
      if sharedVolumeName != "" then sharedVolumeName else "instrumentation-packages"
    }

    function GetSharedVolumePath(): string {
      if sharedVolumePath != "" then sharedVolumePath else "/instrumentation-packages"
    }
  }

  // ---------- Selection ----------

  const SIDECAR_PATTERNS := [
    "istio-proxy", "linkerd-proxy", "envoy", "oauth2-proxy", "cloudsql-proxy", "kube-proxy", "fluentd",
    "fluent-bit", "filebeat", "prometheus", "grafana-agent", "jaeger-agent", "otel-collector",
    "vault-agent", "consul-connect"]

  const INIT_PATTERNS := ["busybox", "alpine", "scratch", "k8s.gcr.io/pause", "registry.k8s.io/pause"]

  const PYTHON_IMAGE_PATTERNS := [
    "python", "pypy", "django", "flask", "fastapi", "uvicorn", "gunicorn", "celery", "jupyter",
    "anaconda", "miniconda"]

  const PYTHON_ENV_PREFIXES := [
    "PYTHONPATH", "PYTHON_VERSION", "PIP_", "POETRY_", "CONDA_", "VIRTUAL_ENV",
    "DJANGO_SETTINGS_MODULE", "FLASK_APP", "FASTAPI_"]

  const PYTHON_ARG_PATTERNS := ["python", "pip", "django", "flask", "gunicorn", "uvicorn"]

  /** An annotation's comma-separated list names the container. */
  predicate Lists(list: string, name: string) {
    exists part <- Split(list, ',') :: TrimSpace(part) == name
  }

  /** The language a container-languages annotation gives the container, by its first mapping for that name. */
  function MappedLanguage(mappings: seq<string>, name: string): string {
    if mappings == [] then ""
    else
      var parts := Split(TrimSpace(mappings[0]), ':');
      if |parts| == 2 && TrimSpace(parts[0]) == name then TrimSpace(parts[1])
      else MappedLanguage(mappings[1..], name)
  }

  predicate AnnotationsAllow(annotations: map<string, string>, name: string) {
    && ("openlit.io/exclude-containers" in annotations ==> !Lists(annotations["openlit.io/exclude-containers"], name))
    && ("openlit.io/include-containers" in annotations ==> Lists(annotations["openlit.io/include-containers"], name))
    && ("openlit.io/container-languages" in annotations ==>
          MappedLanguage(Split(annotations["openlit.io/container-languages"], ','), name) in {"", "python"})
  }

  predicate IsPythonContainer(c: Container) {
    || ContainsAny(ToLower(c.image), PYTHON_IMAGE_PATTERNS)
    || (exists e <- c.env :: HasAnyPrefix(e.name, PYTHON_ENV_PREFIXES))
    || (exists arg <- c.command + c.args :: ContainsAny(ToLower(arg), PYTHON_ARG_PATTERNS))
  }

  predicate ShouldInstrument(meta: PodMeta, c: Container) {
    && AnnotationsAllow(meta.annotations, c.name)
    && !ContainsAny(ToLower(c.name), SIDECAR_PATTERNS)
    && !ContainsAny(ToLower(c.image), INIT_PATTERNS)
    && IsPythonContainer(c)
  }

  predicate HasMount(c: Container, volumeName: string) {
    exists m <- c.volumeMounts :: m.name == volumeName
  }

  /** A container this injection instruments: selected, and without a mount of the shared volume's name. */
  predicate IsTarget(config: InjectorConfig, meta: PodMeta, c: Container) {
    ShouldInstrument(meta, c) && !HasMount(c, config.GetSharedVolumeName())
  }

  // ---------- What is added ----------

  function FirstPythonPath(env: seq<EnvVar>): string {
    if env == [] then ""
    else if env[0].name == "PYTHONPATH" then env[0].value
    else FirstPythonPath(env[1..])
  }

  function Join(parts: seq<string>): string {
    if parts == [] then "" else if |parts| == 1 then parts[0] else parts[0] + "," + Join(parts[1..])
  }

  /** The OpenTelemetry instance id, once the pod has a name. */
  function InstanceId(meta: PodMeta, c: Container): string {
    if meta.name != "" then meta.serviceInstanceId(c.name) else ""
  }

  function ResourceAttributes(config: InjectorConfig, meta: PodMeta, c: Container): seq<string> {
    ["service.name=" + meta.serviceName(c.name),
     "service.namespace=" + meta.serviceNamespace,
     "deployment.environment=" + if config.environment == "" then "kubernetes" else config.environment]
    + (if meta.serviceVersion != "" then ["service.version=" + meta.serviceVersion] else [])
    + (if meta.name != "" then ["service.instance.id=" + InstanceId(meta, c)] else [])
  }

  function StandardVariables(config: InjectorConfig, meta: PodMeta, c: Container): seq<EnvVar> {
    var existing := FirstPythonPath(c.env);
    [EnvVar("PYTHONPATH", config.GetSharedVolumePath() + if existing != "" then ":" + existing else ""),
     EnvVar("OTEL_EXPORTER_OTLP_ENDPOINT", config.otlpEndpoint),
     EnvVar("OTEL_EXPORTER_OTLP_HEADERS", config.otlpHeaders),
     EnvVar("OTEL_SERVICE_NAME", meta.serviceName(c.name)),
     EnvVar("OTEL_SERVICE_NAMESPACE", meta.serviceNamespace),
     EnvVar("OTEL_DEPLOYMENT_ENVIRONMENT", if config.environment == "" then "kubernetes" else config.environment),
     EnvVar("OTEL_RESOURCE_ATTRIBUTES", Join(ResourceAttributes(config, meta, c))),
     EnvVar("OTEL_SERVICE_VERSION", meta.serviceVersion),
     EnvVar("OTEL_INSTRUMENTATION_GENAI_CAPTURE_MESSAGE_CONTENT",
            if config.captureMessageContent then "true" else "false")]
  }

  function OptionalVariables(config: InjectorConfig, meta: PodMeta, c: Container): seq<EnvVar> {
    (if InstanceId(meta, c) != "" then [EnvVar("OTEL_SERVICE_INSTANCE_ID", InstanceId(meta, c))] else [])
    + (if config.detailedTracing then [EnvVar("OPENLIT_DETAILED_TRACING", "true")] else [])
    + (if config.customPackages != "" then [EnvVar("CUSTOM_PACKAGES", config.customPackages)] else [])
  }

  function EnvironmentVariables(config: InjectorConfig, meta: PodMeta, c: Container): seq<EnvVar> {
    StandardVariables(config, meta, c) + OptionalVariables(config, meta, c)
  }

  function SharedMount(config: InjectorConfig, readOnly: bool): VolumeMount {
    VolumeMount(config.GetSharedVolumeName(), config.GetSharedVolumePath(), readOnly)
  }

  function Instrumented(config: InjectorConfig, meta: PodMeta, c: Container): Container {
    c.(volumeMounts := c.volumeMounts + [SharedMount(config, true)],
       env := c.env + EnvironmentVariables(config, meta, c))
  }

  function InitContainer(config: InjectorConfig): Container {
    Container(config.GetContainerName(), config.GetInitContainerImage(), config.imagePullPolicy,
              ["/bin/sh"], ["-c", config.installCommand],
              [EnvVar("INSTRUMENTATION_PROVIDER", config.provider)], [SharedMount(config, false)],
              "cpu 100m-200m, memory 128Mi-256Mi", None)
  }

  predicate HasVolume(volumes: seq<Volume>, name: string) {
    exists v <- volumes :: v.name == name
  }

  function WithSharedVolume(config: InjectorConfig, volumes: seq<Volume>): seq<Volume> {
    if HasVolume(volumes, config.GetSharedVolumeName()) then volumes
    else volumes + [Volume(config.GetSharedVolumeName(), EmptyDir)]
  }

  /** The containers after the first `done` of them have been visited. */
  function InstrumentFirst(config: InjectorConfig, meta: PodMeta, containers: seq<Container>, done: nat): seq<Container>
    requires done <= |containers|
  {
    seq(|containers|, i requires 0 <= i < |containers| =>
      if i < done && IsTarget(config, meta, containers[i]) then Instrumented(config, meta, containers[i])
      else containers[i])
  }

  function Injected(config: InjectorConfig, meta: PodMeta, spec: PodSpec): PodSpec {
    PodSpec(
      spec.initContainers + [InitContainer(config)],
      InstrumentFirst(config, meta, spec.containers, |spec.containers|),
      WithSharedVolume(config, spec.volumes))
  }

  /** Visiting one more container instruments it if it is a target, and otherwise changes nothing. */
  lemma VisitOne(config: InjectorConfig, meta: PodMeta, containers: seq<Container>, idx: nat)
    requires idx < |containers|
    ensures
      var before, c := InstrumentFirst(config, meta, containers, idx), containers[idx];
      InstrumentFirst(config, meta, containers, idx + 1) ==
      if IsTarget(config, meta, c) then before[idx := Instrumented(config, meta, c)] else before
    ensures HasTarget(config, meta, containers[..idx + 1]) <==>
              HasTarget(config, meta, containers[..idx]) || IsTarget(config, meta, containers[idx])
  {
    hide ShouldInstrument, Instrumented, HasMount;
    assert containers[..idx + 1] == containers[..idx] + [containers[idx]];
  }

  /** A container cut back to the given numbers of variables and mounts. */
  function CutBack(c: Container, envCount: nat, volumeMountCount: nat): Container {
    c.(env := if |c.env| > envCount then c.env[..envCount] else c.env,
       volumeMounts :=
         if |c.volumeMounts| > volumeMountCount then c.volumeMounts[..volumeMountCount] else c.volumeMounts)
  }

  // ---------- When it succeeds ----------

  predicate SecurityAllows(meta: PodMeta, spec: PodSpec) {
    && (forall c <- spec.containers :: c.readOnlyRootFilesystem != Some(true))
    && ("pod-security.kubernetes.io/enforce" in meta.annotations ==>
          meta.annotations["pod-security.kubernetes.io/enforce"] != "restricted")
  }

  predicate HasTarget(config: InjectorConfig, meta: PodMeta, containers: seq<Container>) {
    exists c <- containers :: IsTarget(config, meta, c)
  }

  predicate Succeeds(config: InjectorConfig, meta: PodMeta, spec: PodSpec) {
    && SecurityAllows(meta, spec)
    && config.GetInitContainerImage() != ""
    && HasTarget(config, meta, spec.containers)
  }

  /** The spec a call leaves: injected where the injection succeeds, otherwise the one it found. */
  function Outcome(config: InjectorConfig, meta: PodMeta, spec: PodSpec): PodSpec {
    if Succeeds(config, meta, spec) then Injected(config, meta, spec) else spec
  }

  // ---------- Main results ----------

  /** Selection is stable: the variables and the mount added to a container do not unselect it. */
  lemma SelectionIsStable(config: InjectorConfig, meta: PodMeta, c: Container)
    requires ShouldInstrument(meta, c)
    ensures ShouldInstrument(meta, Instrumented(config, meta, c))
    ensures HasMount(Instrumented(config, meta, c), config.GetSharedVolumeName())
  {
    var c' := Instrumented(config, meta, c);
    assert SharedMount(config, true) in c'.volumeMounts;
    if e :| e in c.env && HasAnyPrefix(e.name, PYTHON_ENV_PREFIXES) {
      assert e in c'.env;
    }
  }

  /** No target is left after an injection, so a second one always fails. */
  lemma SecondInjectionFails(config: InjectorConfig, meta: PodMeta, spec: PodSpec)
    ensures !Succeeds(config, meta, Outcome(config, meta, spec))
    ensures Succeeds(config, meta, spec) ==> !HasTarget(config, meta, Injected(config, meta, spec).containers)
  {
    hide ShouldInstrument, InitContainer, Instrumented, SecurityAllows;
    if Succeeds(config, meta, spec) {
      var containers' := Injected(config, meta, spec).containers;
      forall c' <- containers'
        ensures !IsTarget(config, meta, c')
      {
        var i :| 0 <= i < |containers'| && containers'[i] == c';
        if IsTarget(config, meta, spec.containers[i]) {
          SelectionIsStable(config, meta, spec.containers[i]);
        }
      }
    }
  }

  /** Idempotence on the spec: a further injection leaves it exactly as the first call left it. */
  lemma InjectionIsIdempotent(config: InjectorConfig, meta: PodMeta, spec: PodSpec)
    ensures Outcome(config, meta, Outcome(config, meta, spec)) == Outcome(config, meta, spec)
  {
    SecondInjectionFails(config, meta, spec);
  }

  /** The part of a container the injector does not write. */
  predicate SameIdentity(c: Container, c': Container) {
    c' == c.(env := c'.env, volumeMounts := c'.volumeMounts)
  }

  /**
   An instrumented container keeps what it had and gains one read-only mount and at least the nine
   standard variables.
   */
  ghost predicate GainedOnly(config: InjectorConfig, c: Container, c': Container) {
    && SameIdentity(c, c')
    && c'.volumeMounts == c.volumeMounts + [SharedMount(config, true)]
    && c.env <= c'.env && |c'.env| >= |c.env| + 9
    && c'.env[|c.env|].name == "PYTHONPATH"
    && config.GetSharedVolumePath() <= c'.env[|c.env|].value
  }

  lemma InstrumentingOnlyAdds(config: InjectorConfig, meta: PodMeta, c: Container)
    ensures GainedOnly(config, c, Instrumented(config, meta, c)) && Instrumented(config, meta, c) != c
  {
    var c' := Instrumented(config, meta, c);
    assert |c'.volumeMounts| == |c.volumeMounts| + 1;
    assert c'.env[|c.env|] == EnvironmentVariables(config, meta, c)[0];
  }

  /**
   A successful injection only adds: one init container, at most one volume, and exactly the selected
   containers without a mount of that name gain a mount and variables behind what was there.
   */
  lemma InjectionOnlyAdds(config: InjectorConfig, meta: PodMeta, spec: PodSpec)
    requires Succeeds(config, meta, spec)
    ensures
      var spec' := Injected(config, meta, spec);
      && spec'.initContainers == spec.initContainers + [InitContainer(config)]
      && spec.volumes <= spec'.volumes && |spec'.volumes| <= |spec.volumes| + 1
      && HasVolume(spec'.volumes, config.GetSharedVolumeName())
      && |spec'.containers| == |spec.containers|
      && spec'.containers != spec.containers
      && forall i | 0 <= i < |spec.containers| ::
           if ShouldInstrument(meta, spec.containers[i]) && !HasMount(spec.containers[i], config.GetSharedVolumeName())
           then GainedOnly(config, spec.containers[i], spec'.containers[i])
           else spec'.containers[i] == spec.containers[i]
  {
    hide ShouldInstrument, InitContainer, Instrumented;
    var spec' := Injected(config, meta, spec);
    forall i | 0 <= i < |spec.containers| && IsTarget(config, meta, spec.containers[i])
      ensures GainedOnly(config, spec.containers[i], spec'.containers[i])
      ensures spec'.containers[i] != spec.containers[i]
    {
      InstrumentingOnlyAdds(config, meta, spec.containers[i]);
    }
    if !HasVolume(spec.volumes, config.GetSharedVolumeName()) {
      assert Volume(config.GetSharedVolumeName(), EmptyDir) in spec'.volumes;
    }
  }

  // ---------- Recovery ----------

  datatype Strategy = FullRollback | PartialCleanup | LeavePartial

  function RecoveryStrategy(instrumentedCount: nat, partialFailure: bool, error: string): Strategy {
    if Contains(error, "security context") || Contains(error, "validation failed") || instrumentedCount == 0 then
      FullRollback
    else if Contains(error, "failed to modify containers") || partialFailure then
      PartialCleanup
    else if (Contains(error, "init container") || Contains(error, "shared volume")) && instrumentedCount > 0 then
      LeavePartial
    else
      PartialCleanup
  }

  function WithoutVolume(volumes: seq<Volume>, name: string): seq<Volume> {
    if volumes == [] then []
    else
      var rest := WithoutVolume(volumes[..|volumes| - 1], name);
      if volumes[|volumes| - 1].name == name then rest else rest + [volumes[|volumes| - 1]]
  }

  /**
   What the partial cleanup makes of a spec. Its last loop resets copies of the containers, so the
   containers stay as they are.
   */
  function PartiallyCleaned(config: InjectorConfig, spec: PodSpec, original: PodSpec): PodSpec {
    PodSpec(
      if |spec.initContainers| > |original.initContainers| then spec.initContainers[..|original.initContainers|]
      else spec.initContainers,
      spec.containers,
      if |spec.volumes| > |original.volumes| then WithoutVolume(spec.volumes, config.GetSharedVolumeName())
      else spec.volumes)
  }

  lemma {:induction false} WithoutAbsentVolume(volumes: seq<Volume>, name: string)
    requires !HasVolume(volumes, name)
    ensures WithoutVolume(volumes, name) == volumes
  {
    if volumes != [] {
      WithoutAbsentVolume(volumes[..|volumes| - 1], name);
    }
  }

  /**
   Had the partial cleanup been chosen after some containers were visited, it would have restored the
   spec exactly when none of them was a target. Atomicity therefore rests on it never being chosen.
   */
  lemma PartialCleanupRestoresExactlyWhen(config: InjectorConfig, meta: PodMeta, spec: PodSpec, done: nat)
    requires done <= |spec.containers|
    ensures
      var reached := Injected(config, meta, spec).(
                       containers := InstrumentFirst(config, meta, spec.containers, done));
      PartiallyCleaned(config, reached, spec) == spec <==> !HasTarget(config, meta, spec.containers[..done])
  {
    var name := config.GetSharedVolumeName();
    var containers' := InstrumentFirst(config, meta, spec.containers, done);
    if !HasVolume(spec.volumes, name) {
      WithoutAbsentVolume(spec.volumes, name);
      assert WithSharedVolume(config, spec.volumes)[..|spec.volumes|] == spec.volumes;
    }
    if HasTarget(config, meta, spec.containers[..done]) {
      var i :| 0 <= i < done && IsTarget(config, meta, spec.containers[i]);
      assert |containers'[i].volumeMounts| > |spec.containers[i].volumeMounts|;
    } else {
      assert forall i | 0 <= i < done :: spec.containers[..done][i] == spec.containers[i];
      assert containers' == spec.containers;
    }
  }
}
