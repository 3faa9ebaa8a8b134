/**
 The pod injector, with the program's objects: a pod whose spec is changed in place, a result record,
 and the recovery that runs when an injection fails.
 */
module Injector {
  import opened Wrappers
  import opened InjectorSpec
  import Laws = InjectorLaws

  class Pod {
    const meta: PodMeta
    var spec: PodSpec

    constructor (meta: PodMeta, spec: PodSpec)
      ensures this.meta == meta && this.spec == spec
    {
      this.meta, this.spec := meta, spec;
    }
  }

  class InjectionResult {
    var success: bool
    var instrumentedCount: nat
    var partialFailure: bool
    var failedContainers: seq<string>
    var recoveryActions: seq<string>
    var error: Option<string>

    constructor ()
      ensures instrumentedCount == 0 && !partialFailure && failedContainers == [] && recoveryActions == []
    {
      success, instrumentedCount, partialFailure := false, 0, false;
      failedContainers, recoveryActions, error := [], [], None;
    }
  }

  class OpenLitInjector {
    const config: InjectorConfig

    constructor (config: InjectorConfig)
      ensures this.config == config
    {
      this.config := config;
    }

    /**
     Injects the instrumentation, or reports an error and leaves the spec exactly as it was. It succeeds
     exactly when the security context allows it, an image is configured and some container is a target.
     */
    method InjectOpenLIT(pod: Pod) returns (err: Option<string>)
      modifies pod
      ensures err.None? <==> Succeeds(config, pod.meta, old(pod.spec))
      ensures pod.spec == Outcome(config, pod.meta, old(pod.spec))
      ensures err.None? <==> pod.spec != old(pod.spec)
      ensures forall wishes: Laws.Wishes | Laws.AreWritten(wishes, pod.meta.annotations) ::
                Laws.ChangesExactlyMeant(config, pod.meta.annotations, old(pod.spec), pod.spec, wishes)
    {
      hide Succeeds, Outcome, Injected;
      var originalSpec := pod.spec;
      var result := new InjectionResult();
      err := ExecuteWithRecovery(pod, originalSpec, result);
      Laws.SucceedsExactlyWhenChanged(config, pod.meta, originalSpec);
      forall wishes: Laws.Wishes | Laws.AreWritten(wishes, pod.meta.annotations)
        ensures Laws.ChangesExactlyMeant(config, pod.meta.annotations, originalSpec, pod.spec, wishes)
      {
        Laws.ChangedExactlyWhen(config, pod.meta, originalSpec, wishes);
      }
    }

    /** Runs the injection and, when it fails, the recovery; that is always a full rollback. */
    method ExecuteWithRecovery(pod: Pod, originalSpec: PodSpec, result: InjectionResult) returns (err: Option<string>)
      requires originalSpec == pod.spec
      requires result.instrumentedCount == 0 && !result.partialFailure && result.failedContainers == []
      modifies pod, result
      ensures err.None? <==> Succeeds(config, pod.meta, originalSpec)
      ensures pod.spec == Outcome(config, pod.meta, originalSpec)
      ensures result.success == err.None?
      ensures err.Some? ==> result.error == err && result.recoveryActions != []
                            && result.recoveryActions[|result.recoveryActions| - 1] == "full_rollback_completed"
    {
      err := Operation(pod, result);
      if err.Some? {
        PerformCleanupRecovery(pod, originalSpec, result, err.value);
        result.error := err;
        result.success := false;
        return;
      }
      result.success := true;
    }

    /** The phases of an injection in order. A phase that fails does so before any container is instrumented. */
    method Operation(pod: Pod, result: InjectionResult) returns (err: Option<string>)
      requires result.instrumentedCount == 0 && result.failedContainers == []
      modifies pod, result
      ensures err.None? <==> Succeeds(config, pod.meta, old(pod.spec))
      ensures err.None? ==> pod.spec == Injected(config, pod.meta, old(pod.spec))
      ensures err.Some? ==> result.instrumentedCount == 0
    {
      var e := ValidateSecurityContext(pod);
      if e.Some? {
        return Some("security context validation failed: " + e.value);
      }
      e := AddInitContainerWithRecovery(pod, result);
      if e.Some? {
        return Some("failed to add init container: " + e.value);
      }
      e := AddSharedVolumeWithRecovery(pod, result);
      if e.Some? {
        return Some("failed to add shared volume: " + e.GetOr(""));
      }
      e := ModifyContainersWithRecovery(pod, result);
      if e.Some? {
        return Some("failed to modify containers: " + e.value);
      }
      if result.instrumentedCount == 0 {
        return Some("no containers were instrumented - all containers excluded by selection criteria");
      }
      return None;
    }

    method ValidateSecurityContext(pod: Pod) returns (err: Option<string>)
      ensures err.None? <==> SecurityAllows(pod.meta, pod.spec)
    {
      for idx := 0 to |pod.spec.containers|
        invariant forall k | 0 <= k < idx :: pod.spec.containers[k].readOnlyRootFilesystem != Some(true)
      {
        var container := pod.spec.containers[idx];
        if container.readOnlyRootFilesystem == Some(true) {
          return Some("container " + container.name
              + " has readOnlyRootFilesystem=true which prevents instrumentation");
        }
      }
      if "pod-security.kubernetes.io/enforce" in pod.meta.annotations {
        if pod.meta.annotations["pod-security.kubernetes.io/enforce"] == "restricted" {
          return Some("pod enforces 'restricted' Pod Security Standard which may prevent instrumentation");
        }
      }
      return None;
    }

    method AddInitContainerWithRecovery(pod: Pod, result: InjectionResult) returns (err: Option<string>)
      modifies pod, result`recoveryActions
      ensures err.None? <==> config.GetInitContainerImage() != ""
      ensures pod.spec ==
                if err.None?
                then old(pod.spec).(initContainers := old(pod.spec).initContainers + [InitContainer(config)])
                else old(pod.spec)
    {
      var originalCount := |pod.spec.initContainers|;
      var initContainer := InitContainer(config);
      if initContainer.name == "" {
        return Some("init container name is empty");
      }
      if initContainer.image == "" {
        return Some("init container image is empty");
      }
      pod.spec := pod.spec.(initContainers := pod.spec.initContainers + [initContainer]);
      if |pod.spec.initContainers| != originalCount + 1 {
        return Some("init container addition failed");
      }
      result.recoveryActions := result.recoveryActions + ["added_init_container"];
      return None;
    }

    /** Adds the shared volume unless one of its name is there already. */
    method AddSharedVolumeWithRecovery(pod: Pod, result: InjectionResult) returns (err: Option<string>)
      modifies pod, result`recoveryActions
      ensures err.None?
      ensures pod.spec == old(pod.spec).(volumes := WithSharedVolume(config, old(pod.spec).volumes))
    {
      var originalCount := |pod.spec.volumes|;
      var volumeName := config.GetSharedVolumeName();
      for idx := 0 to |pod.spec.volumes|
        invariant pod.spec == old(pod.spec)
        invariant forall k | 0 <= k < idx :: pod.spec.volumes[k].name != volumeName
      {
        if pod.spec.volumes[idx].name == volumeName {
          return None;
        }
      }
      pod.spec := pod.spec.(volumes := pod.spec.volumes + [Volume(volumeName, EmptyDir)]);
      if |pod.spec.volumes| != originalCount + 1 {
        return Some("shared volume addition failed");
      }
      result.recoveryActions := result.recoveryActions + ["added_shared_volume"];
      return None;
    }

    /**
     Instruments every target. A selected container that already mounts the shared volume is recorded as
     failed and left alone; the phase fails when there are such containers and no target.
     */
    method ModifyContainersWithRecovery(pod: Pod, result: InjectionResult) returns (err: Option<string>)
      requires result.instrumentedCount == 0 && result.failedContainers == []
      modifies pod, result
      ensures pod.spec == old(pod.spec).(
                containers := InstrumentFirst(config, pod.meta, old(pod.spec).containers, |old(pod.spec).containers|))
      ensures result.instrumentedCount > 0 <==> HasTarget(config, pod.meta, old(pod.spec).containers)
      ensures err.Some? ==> result.instrumentedCount == 0
    {
      hide ShouldInstrument, Instrumented;
      ghost var original := pod.spec;
      assert InstrumentFirst(config, pod.meta, original.containers, 0) == original.containers;
      for idx := 0 to |pod.spec.containers|
        invariant pod.spec == original.(containers := InstrumentFirst(config, pod.meta, original.containers, idx))
        invariant result.instrumentedCount > 0 <==> HasTarget(config, pod.meta, original.containers[..idx])
      {
        assert pod.spec.containers[idx] == original.containers[idx];
        VisitOne(config, pod.meta, original.containers, idx);
        if ShouldInstrument(pod.meta, pod.spec.containers[idx]) {
          var originalEnvCount := |pod.spec.containers[idx].env|;
          var originalVolumeMountCount := |pod.spec.containers[idx].volumeMounts|;
          var e := ModifyContainerWithRecovery(pod, idx);
          if e.Some? {
            RecordFailure(pod, idx, originalEnvCount, originalVolumeMountCount, result);
          } else {
            result.instrumentedCount := result.instrumentedCount + 1;
          }
        }
      }
      assert original.containers[..|original.containers|] == original.containers;
      if result.instrumentedCount == 0 && |result.failedContainers| > 0 {
        return Some("all container modifications failed");
      }
      return None;
    }

    /** Adds the mount and the variables to one container, unless it has a mount of that name. */
    method ModifyContainerWithRecovery(pod: Pod, idx: nat) returns (err: Option<string>)
      requires idx < |pod.spec.containers|
      modifies pod
      ensures err.Some? <==> HasMount(old(pod.spec).containers[idx], config.GetSharedVolumeName())
      ensures pod.spec ==
                if err.Some? then old(pod.spec)
                else old(pod.spec).(containers := old(pod.spec).containers[
                       idx := Instrumented(config, pod.meta, old(pod.spec).containers[idx])])
    {
      var volumeMount := SharedMount(config, true);
      var container := pod.spec.containers[idx];
      for k := 0 to |container.volumeMounts|
        invariant pod.spec == old(pod.spec)
        invariant forall j | 0 <= j < k :: container.volumeMounts[j].name != volumeMount.name
      {
        if container.volumeMounts[k].name == volumeMount.name {
          return Some("volume mount " + volumeMount.name + " already exists in container " + container.name);
        }
      }
      container := container.(volumeMounts := container.volumeMounts + [volumeMount]);
      var envVars := EnvironmentVariables(config, pod.meta, container);
      assert |envVars| >= 9;
      container := container.(env := container.env + envVars);
      pod.spec := pod.spec.(containers := pod.spec.containers[idx := container]);
      return None;
    }

    /** Records a container that failed and cuts its variables and mounts back to the given counts. */
    method RecordFailure(pod: Pod, idx: nat, envCount: nat, volumeMountCount: nat, result: InjectionResult)
      requires idx < |pod.spec.containers|
      modifies pod, result`failedContainers, result`partialFailure, result`recoveryActions
      ensures pod.spec == old(pod.spec).(containers := old(pod.spec).containers[
                idx := CutBack(old(pod.spec).containers[idx], envCount, volumeMountCount)])
      ensures result.failedContainers == old(result.failedContainers) + [old(pod.spec).containers[idx].name]
    {
      var container := pod.spec.containers[idx];
      result.failedContainers := result.failedContainers + [container.name];
      result.partialFailure := true;
      if |container.env| > envCount {
        container := container.(env := container.env[..envCount]);
        result.recoveryActions := result.recoveryActions + ["restored_env_vars_for_" + container.name];
      }
      if |container.volumeMounts| > volumeMountCount {
        container := container.(volumeMounts := container.volumeMounts[..volumeMountCount]);
        result.recoveryActions := result.recoveryActions + ["restored_volume_mounts_for_" + container.name];
      }
      pod.spec := pod.spec.(containers := pod.spec.containers[idx := container]);
    }

    /** Restores the spec, cleans it partially, or leaves it, as the strategy says. */
    method PerformCleanupRecovery(pod: Pod, originalSpec: PodSpec, result: InjectionResult, error: string)
      modifies pod, result`recoveryActions
      ensures
        match RecoveryStrategy(result.instrumentedCount, result.partialFailure, error)
        case FullRollback =>
          && pod.spec == originalSpec
          && result.recoveryActions == old(result.recoveryActions) + ["full_rollback_completed"]
        case PartialCleanup => pod.spec == PartiallyCleaned(config, old(pod.spec), originalSpec)
        case LeavePartial => pod.spec == old(pod.spec)
    {
      match RecoveryStrategy(result.instrumentedCount, result.partialFailure, error)
      case FullRollback =>
        pod.spec := originalSpec;
        result.recoveryActions := result.recoveryActions + ["full_rollback_completed"];
      case PartialCleanup =>
        CleanupPartialInstrumentation(pod, originalSpec, result);
      case LeavePartial =>
        result.recoveryActions := result.recoveryActions + ["left_partial_instrumentation"];
    }

    /** Removes added init containers and the shared volume, and resets copies of the containers. */
    method CleanupPartialInstrumentation(pod: Pod, originalSpec: PodSpec, result: InjectionResult)
      modifies pod, result`recoveryActions
      ensures pod.spec == PartiallyCleaned(config, old(pod.spec), originalSpec)
    {
      var originalInitCount := |originalSpec.initContainers|;
      if |pod.spec.initContainers| > originalInitCount {
        pod.spec := pod.spec.(initContainers := pod.spec.initContainers[..originalInitCount]);
        result.recoveryActions := result.recoveryActions + ["removed_added_init_containers"];
      }
      if |pod.spec.volumes| > |originalSpec.volumes| {
        var filteredVolumes: seq<Volume> := [];
        for k := 0 to |pod.spec.volumes|
          invariant filteredVolumes == WithoutVolume(pod.spec.volumes[..k], config.GetSharedVolumeName())
          invariant pod.spec.volumes == old(pod.spec).volumes
        {
          assert pod.spec.volumes[..k + 1][..k] == pod.spec.volumes[..k];
          if pod.spec.volumes[k].name != config.GetSharedVolumeName() {
            filteredVolumes := filteredVolumes + [pod.spec.volumes[k]];
          }
        }
        assert pod.spec.volumes[..|pod.spec.volumes|] == pod.spec.volumes;
        pod.spec := pod.spec.(volumes := filteredVolumes);
        result.recoveryActions := result.recoveryActions + ["removed_shared_volume"];
      }
      result.recoveryActions := result.recoveryActions + ["cleaned_up_container_modifications"];
    }
  }
}
