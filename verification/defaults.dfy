/** The fixed parts every pod receives: the LXCFS host-path volumes and their
    mounts, the HTTP readiness probe and the loopback host aliases. */
module Defaults {
  import V1

  /** The `/proc` files LXCFS virtualises, in the order they are attached. */
  const ProcFiles: seq<string> := ["cpuinfo", "diskstats", "meminfo", "stat", "swaps", "uptime"]

  /** Where LXCFS exposes its per-container `/proc` files on the host. */
  const LxcfsProcDir: string := "/var/lib/lxcfs/proc/"

  const LocaltimeVolume: string := "localtime"

  /** The host time zone file mounted over `/etc/localtime`. */
  const ZoneinfoFile: string := "/usr/share/zoneinfo/Asia/Shanghai"

  // ---------------------------------------------------------------------
  // Volumes and mounts

  /** `createVolumes`: six LXCFS `/proc` files and the time zone file. */
  function CreateVolumes(): (r: seq<V1.Volume>)
    ensures |r| == |ProcFiles| + 1 == 7
    ensures forall i :: 0 <= i < |ProcFiles| ==>
      r[i] == V1.Volume(ProcFiles[i], V1.HostPathVolumeSource(LxcfsProcDir + ProcFiles[i]))
    ensures r[6] == V1.Volume(LocaltimeVolume, V1.HostPathVolumeSource(ZoneinfoFile))
  {
    [ V1.Volume("cpuinfo", V1.HostPathVolumeSource("/var/lib/lxcfs/proc/cpuinfo")),
      V1.Volume("diskstats", V1.HostPathVolumeSource("/var/lib/lxcfs/proc/diskstats")),
      V1.Volume("meminfo", V1.HostPathVolumeSource("/var/lib/lxcfs/proc/meminfo")),
      V1.Volume("stat", V1.HostPathVolumeSource("/var/lib/lxcfs/proc/stat")),
      V1.Volume("swaps", V1.HostPathVolumeSource("/var/lib/lxcfs/proc/swaps")),
      V1.Volume("uptime", V1.HostPathVolumeSource("/var/lib/lxcfs/proc/uptime")),
      V1.Volume("localtime", V1.HostPathVolumeSource("/usr/share/zoneinfo/Asia/Shanghai")) ]
  }

  /** `createVolumeMounts`: each LXCFS file over the container's own `/proc`
      file, and the time zone file over `/etc/localtime`. */
  function CreateVolumeMounts(): (r: seq<V1.VolumeMount>)
    ensures |r| == |ProcFiles| + 1 == 7
    ensures forall i :: 0 <= i < |ProcFiles| ==> r[i] == V1.VolumeMount(ProcFiles[i], "/proc/" + ProcFiles[i])
    ensures r[6] == V1.VolumeMount(LocaltimeVolume, "/etc/localtime")
  {
    [ V1.VolumeMount("cpuinfo", "/proc/cpuinfo"),
      V1.VolumeMount("diskstats", "/proc/diskstats"),
      V1.VolumeMount("meminfo", "/proc/meminfo"),
      V1.VolumeMount("stat", "/proc/stat"),
      V1.VolumeMount("swaps", "/proc/swaps"),
      V1.VolumeMount("uptime", "/proc/uptime"),
      V1.VolumeMount("localtime", "/etc/localtime") ]
  }

  /** Volumes and mounts pair up position by position, the volume names are
      distinct, and so every mount names exactly one declared volume. */
  lemma VolumesMatchMounts()
    ensures var vols := CreateVolumes();
      var mounts := CreateVolumeMounts();
      |vols| == |mounts| &&
      (forall i :: 0 <= i < |vols| ==> vols[i].name == mounts[i].name) &&
      (forall i, j :: 0 <= i < j < |vols| ==> vols[i].name != vols[j].name)
  {
    var vols := CreateVolumes();
    forall i, j | 0 <= i < j < |vols|
      ensures vols[i].name != vols[j].name
    {
      assert vols[i].name[0] != vols[j].name[0] || |vols[i].name| != |vols[j].name|;
    }
  }

  // ---------------------------------------------------------------------
  // Readiness probe

  /** `PodHttpReadinessProbe`: the settings of an HTTP readiness probe. */
  datatype PodHttpReadinessProbe = PodHttpReadinessProbe(
    path: string,
    port: int,
    failureThreshold: int,
    initialDelaySeconds: int,
    periodSeconds: int,
    timeoutSeconds: int,
    successThreshold: int)

  /** `newProbe`: the fixed operational settings. */
  function NewProbe(): (p: PodHttpReadinessProbe)
    ensures p.path == "/hs" && p.port == 8080
    ensures p.failureThreshold == 12 && p.initialDelaySeconds == 60
    ensures p.periodSeconds == 5 && p.timeoutSeconds == 3 && p.successThreshold == 3
  {
    PodHttpReadinessProbe("/hs", 8080, 12, 60, 5, 3, 3)
  }

  /** The settings a Kubernetes probe carries. */
  function SettingsOf(probe: V1.Probe): PodHttpReadinessProbe {
    PodHttpReadinessProbe(probe.httpGet.path, probe.httpGet.port, probe.failureThreshold,
      probe.initialDelaySeconds, probe.periodSeconds, probe.timeoutSeconds, probe.successThreshold)
  }

  /** `createReadinessProbe`: an HTTP GET probe carrying the settings
      unchanged, so that they can be read back from it. */
  function CreateReadinessProbe(settings: PodHttpReadinessProbe): (r: V1.Probe)
    ensures SettingsOf(r) == settings
  {
    var action := V1.HttpGetAction(settings.path, settings.port);
    V1.Probe(action, settings.failureThreshold, settings.initialDelaySeconds,
      settings.periodSeconds, settings.timeoutSeconds, settings.successThreshold)
  }

  /** Every pod is probed with GET /hs on port 8080 after 60 seconds, every
      5 seconds, with a 3 second timeout, 3 successes to become ready and 12
      failures to become unready. */
  lemma DefaultReadinessProbe()
    ensures CreateReadinessProbe(NewProbe()) ==
      V1.Probe(V1.HttpGetAction("/hs", 8080), 12, 60, 5, 3, 3)
  {
  }

  // ---------------------------------------------------------------------
  // Host aliases

  const LoopbackIp: string := "127.0.0.1"

  /** The host alias block. The source appends the IPv6 host names
      (localhost6 and friends) into the first list's variable instead of the
      second, and the second alias copies the first with its host names
      replaced by the second list, which is still empty. So the IPv6 names
      are lost and the second alias has none. */
  function DefaultHostAliases(): (r: seq<V1.HostAlias>)
    ensures |r| == 2
    ensures r[0] == V1.HostAlias(LoopbackIp, ["localhost.localdomain", "localhost4", "localhost4.localdomain4"])
    ensures r[1] == V1.HostAlias(LoopbackIp, [])
  {
    [ V1.HostAlias("127.0.0.1", ["localhost.localdomain", "localhost4", "localhost4.localdomain4"]),
      V1.HostAlias("127.0.0.1", []) ]
  }
}
