/** The pod builder: `createPod` and `createContainer` turn an application's
    pod template, its quota and the configured environment name into a
    Kubernetes pod. Everything here is pure; submitting the pod to the
    cluster is not part of this model. */
module Client {
  import opened Strings
  import opened V1
  import opened Quota
  import opened Naming
  import opened Defaults
  import opened Sysctls

  /** `Conf`: the builder only reads the environment name. The API server
      address and bearer token are kept for the transport, which is not
      modelled. */
  datatype Conf = Conf(k8sApiServer: string, k8sBearerToken: string, env: string)

  /** `AppPodTemplate`: what one deployment asks for. `port` is an `int32`
      and `flags` the bit pattern of an `int64`. */
  datatype AppPodTemplate<Q> = AppPodTemplate(
    namespace: string,
    appID: string,
    appName: string,
    image: string,
    quota: K8sQuota<Q>,
    dns: string,
    podName: string,
    podIP: string,
    port: int,
    envJson: string,
    sysctl: string,
    flags: bv64)

  // ---------------------------------------------------------------------
  // Environment variables

  /** The value of the `ENV` variable: environment names starting with "fat"
      or "lpt" are reported as "fat", those starting with "uat" as "uat",
      and any other name as itself. The prefix test is case-sensitive. */
  function ClassifyEnv(env: string): (r: string)
    ensures r == "fat" <==> HasPrefix(env, "fat") || HasPrefix(env, "lpt")
    ensures r == "uat" <==> HasPrefix(env, "uat")
    ensures r != "fat" && r != "uat" ==> r == env
  {
    if HasPrefix(env, "fat") || HasPrefix(env, "lpt") then "fat"
    else if HasPrefix(env, "uat") then "uat"
    else env
  }

  /** Classifying a classified name changes nothing. */
  lemma ClassifyEnvIdempotent(env: string)
    ensures ClassifyEnv(ClassifyEnv(env)) == ClassifyEnv(env)
  {
    var r := ClassifyEnv(env);
    if r == "fat" {
      assert HasPrefix(r, "fat");
    } else if r == "uat" {
      assert HasPrefix(r, "uat");
    }
  }

  const JavaOptsVariable: string := "JAVA_TOOLS_OPTIONS"

  /** The container's environment: the application and instance identity,
      the classified environment name, the time zone and locale, and the
      quota's JVM options when there are any. */
  function ContainerEnv<Q>(env: string, template: AppPodTemplate<Q>): (r: seq<EnvVar>)
    ensures |r| == (if |template.quota.javaOpts| > 0 then 8 else 7)
    ensures r[..7] == [
      EnvVar("APP_ID", template.appID),
      EnvVar("APP_NAME", template.appName),
      EnvVar("INSTANCE_NAME", template.podName),
      EnvVar("ENV", ClassifyEnv(env)),
      EnvVar("TZ", "Asia/Shanghai"),
      EnvVar("LANG", "en_US.UTF-8"),
      EnvVar("LC_ALL", "en_US.UTF-8")]
    ensures |r| == 8 ==> r[7] == EnvVar(JavaOptsVariable, template.quota.javaOpts)
  {
    var envs := [
      EnvVar("APP_ID", template.appID),
      EnvVar("APP_NAME", template.appName),
      EnvVar("INSTANCE_NAME", template.podName),
      EnvVar("ENV", ClassifyEnv(env)),
      EnvVar("TZ", "Asia/Shanghai"),
      EnvVar("LANG", "en_US.UTF-8"),
      EnvVar("LC_ALL", "en_US.UTF-8")];
    if |template.quota.javaOpts| > 0 then envs + [EnvVar(JavaOptsVariable, template.quota.javaOpts)]
    else envs
  }

  /** No variable is set twice, so each name has one well-defined value. */
  lemma ContainerEnvNamesDistinct<Q>(env: string, template: AppPodTemplate<Q>)
    ensures var r := ContainerEnv(env, template);
      forall i, j :: 0 <= i < j < |r| ==> r[i].name != r[j].name
  {
    var r := ContainerEnv(env, template);
    forall i, j | 0 <= i < j < |r|
      ensures r[i].name != r[j].name
    {
      assert r[i] == r[..7][i];
      if j < 7 {
        assert r[j] == r[..7][j];
      }
      assert r[i].name[0] != r[j].name[0] || r[i].name[1] != r[j].name[1] || |r[i].name| != |r[j].name|;
    }
  }

  // ---------------------------------------------------------------------
  // Container and pod

  /** `createContainer`: the pod's single container. */
  function CreateContainer<Q>(conf: Conf, template: AppPodTemplate<Q>): (c: Container<Q>)
    ensures c.name == FormatContainerName(template.appName)
    ensures c.image == template.image && c.imagePullPolicy == "IfNotPresent"
    ensures c.env == ContainerEnv(conf.env, template)
    ensures c.resources.limits.Keys == c.resources.requests.Keys == {"cpu", "memory"}
    ensures c.resources.limits["cpu"] == template.quota.limitCPU
    ensures c.resources.limits["memory"] == template.quota.limitMemory
    ensures c.resources.requests["cpu"] == template.quota.requestCPU
    ensures c.resources.requests["memory"] ==
      if IsProduction(conf.env) && !OversubscribesMemory(template.flags)
      then template.quota.limitMemory else template.quota.requestMemory
    ensures c.volumeMounts == CreateVolumeMounts()
    ensures c.readinessProbe == Some(Probe(HttpGetAction("/hs", 8080), 12, 60, 5, 3, 3))
  {
    DefaultReadinessProbe();
    Container(
      FormatContainerName(template.appName),
      template.image,
      ContainerEnv(conf.env, template),
      ResolveResources(template.quota, conf.env, template.flags),
      "IfNotPresent",
      CreateVolumeMounts(),
      Some(CreateReadinessProbe(NewProbe())))
  }

  const PullSecret: string := "dockeryardkey"

  /** `createPod`: the pod for one deployment. No field of the template is
      validated. */
  function CreatePod<Q>(conf: Conf, template: AppPodTemplate<Q>): (p: Pod<Q>)
    ensures p.apiVersion == "v1" && p.kind == "Pod"
    ensures p.metadata.name == template.podName && p.metadata.namespace == ""
    ensures p.metadata.labels == map[
      "app" := template.appName, "appid" := template.appID,
      "instance" := template.podName, "ip" := template.podIP]
    ensures p.spec.hostname == PodHostname(template.podName)
    ensures p.spec.priorityClassName == template.quota.scope
    ensures |template.dns| == 0 ==> p.spec.dnsPolicy == "Default" && p.spec.dnsConfig == None
    ensures |template.dns| > 0 ==>
      p.spec.dnsPolicy == "None" && p.spec.dnsConfig == Some(PodDnsConfig([template.dns]))
    ensures p.spec.volumes == CreateVolumes()
    ensures p.spec.imagePullSecrets == [LocalObjectReference(PullSecret)]
    ensures p.spec.containers == [CreateContainer(conf, template)]
    ensures p.spec.restartPolicy == "Always"
    ensures p.spec.securityContext == Some(PodSecurityContext(ParseSysctls(template.sysctl)))
    ensures p.spec.hostAliases == DefaultHostAliases()
  {
    var labels := map[
      "app" := template.appName, "appid" := template.appID,
      "instance" := template.podName, "ip" := template.podIP];
    var meta := ObjectMeta(template.podName, "", labels);
    var dnsPolicy := if |template.dns| == 0 then "Default" else "None";
    var dnsConfig := if |template.dns| == 0 then None else Some(PodDnsConfig([template.dns]));
    var spec := PodSpec(
      PodHostname(template.podName),
      template.quota.scope,
      dnsPolicy,
      dnsConfig,
      CreateVolumes(),
      [LocalObjectReference(PullSecret)],
      [CreateContainer(conf, template)],
      "Always",
      Some(PodSecurityContext(ParseSysctls(template.sysctl))),
      DefaultHostAliases());
    Pod("v1", "Pod", meta, spec)
  }

  // ---------------------------------------------------------------------
  // Properties of the built pod

  /** The pod's identity: one container, and the pod name, the `instance`
      label and the `INSTANCE_NAME` variable all carry the template's pod
      name. */
  lemma PodIdentity<Q>(conf: Conf, template: AppPodTemplate<Q>)
    ensures var p := CreatePod(conf, template);
      |p.spec.containers| == 1 &&
      p.metadata.labels.Keys == {"app", "appid", "instance", "ip"} &&
      p.metadata.labels["instance"] == p.metadata.name == template.podName &&
      p.spec.containers[0].env[2] == EnvVar("INSTANCE_NAME", p.metadata.name)
  {
    PodLabelKeys(template.appName, template.appID, template.podName, template.podIP);
    InstanceNameVariable(conf.env, template);
  }

  /** The third variable carries the pod name. */
  lemma InstanceNameVariable<Q>(env: string, template: AppPodTemplate<Q>)
    ensures ContainerEnv(env, template)[2] == EnvVar("INSTANCE_NAME", template.podName)
  {
    var r := ContainerEnv(env, template);
    assert r[2] == r[..7][2];
  }

  /** The pod's label map has exactly the four keys. */
  lemma PodLabelKeys(app: string, appID: string, instance: string, ip: string)
    ensures map["app" := app, "appid" := appID, "instance" := instance, "ip" := ip].Keys ==
      {"app", "appid", "instance", "ip"}
  {
  }

  /** The template's namespace, port and environment JSON never reach the
      pod. */
  lemma PodIgnoresUncopiedFields<Q>(conf: Conf, template: AppPodTemplate<Q>, namespace: string, port: int, envJson: string)
    ensures CreatePod(conf, template) ==
      CreatePod(conf, template.(namespace := namespace, port := port, envJson := envJson))
  {
  }

  /** Every mount of the container names the pod volume at the same
      position, and all seven are present. */
  lemma PodMountsMatchVolumes<Q>(conf: Conf, template: AppPodTemplate<Q>)
    ensures var p := CreatePod(conf, template);
      var mounts := p.spec.containers[0].volumeMounts;
      |mounts| == |p.spec.volumes| == 7 &&
      forall i :: 0 <= i < |mounts| ==> mounts[i].name == p.spec.volumes[i].name
  {
    VolumesMatchMounts();
  }

  /** The container's resources follow the memory policy: the memory request
      equals the memory limit exactly in production without the
      oversubscription bit, unless the quota's own request already equals
      its limit. */
  lemma PodMemoryRequestPinned<Q>(conf: Conf, template: AppPodTemplate<Q>)
    requires template.quota.requestMemory != template.quota.limitMemory
    ensures var r := CreatePod(conf, template).spec.containers[0].resources;
      r.requests["memory"] == r.limits["memory"] <==>
        IsProduction(conf.env) && !OversubscribesMemory(template.flags)
  {
  }

  /** The container name never carries an escaped dot, while the host name is
      the pod name with its escaped dots deleted. */
  lemma PodNames<Q>(conf: Conf, template: AppPodTemplate<Q>)
    ensures !Contains(CreatePod(conf, template).spec.containers[0].name, EscapedDot)
    ensures !Contains(template.podName, EscapedDot) ==> CreatePod(conf, template).spec.hostname == template.podName
  {
  }
}
