/** The subset of the Kubernetes core/v1 object model that the pod builder
    fills in. Fields the builder never sets are not represented, and
    fields the builder may leave nil are `Option`s. `Q` stands for
    `resource.Quantity`, which the builder only copies. */
module V1 {

  datatype Option<T> = None | Some(value: T)

  datatype EnvVar = EnvVar(name: string, value: string)

  /** `v1.ResourceRequirements`: resource name ("cpu", "memory") to quantity. */
  datatype ResourceRequirements<Q> = ResourceRequirements(limits: map<string, Q>, requests: map<string, Q>)

  datatype HostPathVolumeSource = HostPathVolumeSource(path: string)

  datatype Volume = Volume(name: string, hostPath: HostPathVolumeSource)

  datatype VolumeMount = VolumeMount(name: string, mountPath: string)

  /** `v1.HTTPGetAction`; the port is the integer form of `intstr.IntOrString`. */
  datatype HttpGetAction = HttpGetAction(path: string, port: int)

  datatype Probe = Probe(
    httpGet: HttpGetAction,
    failureThreshold: int,
    initialDelaySeconds: int,
    periodSeconds: int,
    timeoutSeconds: int,
    successThreshold: int)

  datatype Container<Q> = Container(
    name: string,
    image: string,
    env: seq<EnvVar>,
    resources: ResourceRequirements<Q>,
    imagePullPolicy: string,
    volumeMounts: seq<VolumeMount>,
    readinessProbe: Option<Probe>)

  datatype Sysctl = Sysctl(name: string, value: string)

  datatype PodSecurityContext = PodSecurityContext(sysctls: seq<Sysctl>)

  datatype HostAlias = HostAlias(ip: string, hostnames: seq<string>)

  datatype PodDnsConfig = PodDnsConfig(nameservers: seq<string>)

  datatype LocalObjectReference = LocalObjectReference(name: string)

  datatype ObjectMeta = ObjectMeta(name: string, namespace: string, labels: map<string, string>)

  datatype PodSpec<Q> = PodSpec(
    hostname: string,
    priorityClassName: string,
    dnsPolicy: string,
    dnsConfig: Option<PodDnsConfig>,
    volumes: seq<Volume>,
    imagePullSecrets: seq<LocalObjectReference>,
    containers: seq<Container<Q>>,
    restartPolicy: string,
    securityContext: Option<PodSecurityContext>,
    hostAliases: seq<HostAlias>)

  datatype Pod<Q> = Pod(apiVersion: string, kind: string, metadata: ObjectMeta, spec: PodSpec<Q>)
}
