# Pod descriptor builder — a Dafny model

This project models the pure core of the CICD gate server's Kubernetes client
(`internal/gateserver/client/k8s.go`). That core turns an application's pod
template (`AppPodTemplate`), its resource quota (`K8sQuota`) and the configured
environment name (`Conf.Env`) into a Kubernetes `v1.Pod`. Nothing in it does
I/O. It covers:

- **Resource resolution** (`Quota`). CPU and memory limits always come from the
  quota, and so does the CPU request. The memory request is pinned to the memory
  limit when the environment name equals "pro" ignoring case and bit 0 of the
  template's flag word is clear. Otherwise it is the quota's memory request.
- **The environment-variable list** (`Client.ContainerEnv`). Seven variables come
  in a fixed order. `JAVA_TOOLS_OPTIONS` follows when the quota has JVM options.
  The `ENV` value is classified from the environment name's prefix.
- **The sysctl parser** (`Sysctls`). It splits on commas, trims each segment as a
  whole, splits it on `=` and keeps the first two fields. A segment without `=`
  is dropped.
- **The name normalisers** (`Naming`):
  - the container name (escaped dots `\.` become `-`);
  - the host name (escaped dots are deleted);
  - the service name (dots become `-`, and a leading digit gets an `s` prefix);
  - the label-selector string (`convert`).
- **The fixed defaults** (`Defaults`): seven LXCFS and time-zone host-path volumes
  with their mounts, the `/hs` readiness probe, and the host-alias block.
- **Pod assembly** (`Client.CreatePod`): labels, host name, DNS policy, pull
  secret, restart policy, sysctls and host aliases around the single container.

The parts of Go's `strings` package that the builder uses are modelled in
`Strings`, together with the properties they need: split/join round trips, the
trimming characterisation and the matching behaviour of `ReplaceAll`. The
Kubernetes object types the builder fills in are in `V1`.
`resource.Quantity` is never computed with, only copied, so it is an opaque type
parameter `Q`. The `int64` flag word is held as its 64-bit pattern (`bv64`).

Behaviour of the code that is easy to misread:

- The production test is `EqualFold(env, "pro")`.
- The sysctl parser trims each segment but not the text around `=`. It keeps
  empty names and values (`=` gives `("", "")`) and ignores fields after the
  second (`a=b=c` gives `(a, b)`). So `net.core.x = 1` yields the name
  `"net.core.x "` and the value `" 1"`.
- `createPod` validates no field of the template. It fails only by a nil
  dereference: a nil template or a nil `K8sQuota` panics. The model's records
  cannot be nil, so it does not show those panics (see "Left out"). In
  `getServiceFromAppName`, indexing the first byte of an empty name panics; this
  becomes the precondition `|appName| > 0` of `Naming.ServiceName`.
- The host-alias block has two entries, both for `127.0.0.1`. The source builds
  the IPv6 host-name list into the first list's variable, so the second entry is
  the first entry with its host names replaced by the still-empty second list.
  The model keeps that behaviour.
- The host name deletes `\.`; it does not replace it with `-`. Unlike the
  container name, the host name rewrite is not idempotent
  (`Naming.PodHostnameNotIdempotent`).

## Model

| member | source | states |
|---|---|---|
| Quota.ResolveResources | internal/gateserver/client/k8s.go:401-427 | Limits are exactly {cpu: limitCPU, memory: limitMemory}. Requests are exactly {cpu, memory}, with cpu = requestCPU. Requests.memory equals the memory limit when env is "pro" ignoring case and bit 0 of the flags is clear; in every other case it is requestMemory. |
| Quota.IsProduction | internal/gateserver/client/k8s.go:402 | The production test accepts exactly the three-letter spellings of "pro" in any letter case. |
| Quota.OversubscribesMemory | internal/gateserver/client/k8s.go:412 | The oversubscription bit (bit 0 of the flag word) is set iff the flag word is odd. |
| Quota.FlagsIgnoredOutsideProduction | internal/gateserver/client/k8s.go:417-427 | Outside production the flag word has no effect on the requirements. |
| Quota.OnlyMemoryRequestVaries | internal/gateserver/client/k8s.go:401-427 | For any two environments and flag words, the limits and the CPU request are the same. |
| Client.ClassifyEnv | internal/gateserver/client/k8s.go:359-368 | ENV is "fat" iff the name starts with "fat" or "lpt". It is "uat" iff the name starts with "uat". Otherwise it is the name unchanged. The prefix tests are case-sensitive. |
| Client.ClassifyEnvIdempotent | internal/gateserver/client/k8s.go:359-368 | Classifying an already classified name changes nothing. |
| Client.ContainerEnv | internal/gateserver/client/k8s.go:342-399 | The list is APP_ID, APP_NAME, INSTANCE_NAME, ENV, TZ=Asia/Shanghai, LANG=en_US.UTF-8, LC_ALL=en_US.UTF-8, in that order. JAVA_TOOLS_OPTIONS is appended iff the quota's JVM options are non-empty, so the length is 7 or 8. |
| Client.ContainerEnvNamesDistinct | internal/gateserver/client/k8s.go:342-399 | No variable name appears twice in the list. |
| Client.CreateContainer | internal/gateserver/client/k8s.go:339-438 | The container has the formatted name, the template image and pull policy IfNotPresent. It carries the env list, the seven default mounts and the GET /hs:8080 probe. Its resources follow the memory policy. |
| Client.CreatePod | internal/gateserver/client/k8s.go:207-282 | The pod is apiVersion v1, kind Pod. Its name is the pod name, its namespace is empty, and its labels are exactly {app, appid, instance, ip}. DNS policy is Default when Dns is empty, otherwise None with Dns as the only nameserver. It has the seven volumes, the single pull secret dockeryardkey and one container. Restart policy is Always. Sysctls are parsed from the template. Host aliases are the defaults. |
| Client.PodIdentity | internal/gateserver/client/k8s.go:212-222 | The pod has exactly one container. Its label keys are exactly app, appid, instance and ip. The instance label, the pod name and INSTANCE_NAME all equal the template's pod name. |
| Client.PodIgnoresUncopiedFields | internal/gateserver/client/k8s.go:207-282 | Namespace, Port and EnvJson of the template do not affect the pod. |
| Client.PodMountsMatchVolumes | internal/gateserver/client/k8s.go:237-245 | The container's seven mounts name the pod's seven volumes, position by position. |
| Client.PodMemoryRequestPinned | internal/gateserver/client/k8s.go:412-416 | When the quota's request and limit differ, the memory request equals the memory limit iff the environment is production and the oversubscription bit is clear. |
| Client.PodNames | internal/gateserver/client/k8s.go:225 | The container name holds no escaped dot. A pod name without escaped dots is its own host name. |
| Naming.FormatContainerName | internal/gateserver/client/k8s.go:440-442 | The container name is one character shorter than the application name for each `\.` the left-to-right scan finds. No `\.` is left in it. A name is its own container name iff it contains no `\.`. |
| Naming.HyphensLeaveNoEscapedDot | internal/gateserver/client/k8s.go:441 | After every `\.` is replaced by `-`, no `\.` is left, because a hyphen cannot start a new one. |
| Naming.FormatContainerNameIdempotent | internal/gateserver/client/k8s.go:440-442 | Formatting a container name twice gives the same result as formatting it once. |
| Naming.FormatContainerNameExamples | internal/gateserver/client/k8s.go:440-442 | `my\.app` becomes `my-app`; `my.app` is unchanged. |
| Naming.PodHostname | internal/gateserver/client/k8s.go:225 | The host name is two characters shorter than the pod name for each `\.` the left-to-right scan finds. A pod name is its own host name iff it contains no `\.`. |
| Naming.HostnameAndContainerNameAgree | internal/gateserver/client/k8s.go:225 | Cut a name at the `\.` that the scan finds. Joining the pieces with `\.` gives the name back, joining them with `-` gives the container name, and joining them with nothing gives the host name. So both rewrites act on the same occurrences. |
| Naming.PodHostnameNotIdempotent | internal/gateserver/client/k8s.go:225 | Deleting `\.` from `\\..` leaves `\.`, which a second pass deletes, so the host name rewrite is not idempotent. |
| Naming.ServiceName | internal/gateserver/client/k8s.go:690-696 | Requires a non-empty name. The result contains no dot. Each character is copied, with `.` turned into `-`. An `s` is prefixed iff the first character is a digit, so the length grows by one exactly then. |
| Naming.ServiceNameExamples | internal/gateserver/client/k8s.go:690-696 | `3abc.def` gives `s3abc-def` and `abc.def` gives `abc-def`. |
| Naming.Convert | internal/gateserver/client/k8s.go:123-136 | The selector is empty iff the label map is empty. |
| Naming.SelectorBufferIsJoin | internal/gateserver/client/k8s.go:124-130 | The builder holds the comma-joined `key=value` terms followed by exactly one comma. |
| Naming.ConvertIsJoin | internal/gateserver/client/k8s.go:123-136 | The selector is the `key=value` terms joined by commas, in iteration order, with no trailing comma. |
| Naming.ConvertSplitsBack | internal/gateserver/client/k8s.go:123-136 | When no key or value contains a comma, splitting the selector on commas gives back one term per label. |
| Defaults.CreateVolumes | internal/gateserver/client/k8s.go:284-337 | Seven volumes: cpuinfo, diskstats, meminfo, stat, swaps and uptime from /var/lib/lxcfs/proc/<name>, then localtime from the Asia/Shanghai zone file. |
| Defaults.CreateVolumeMounts | internal/gateserver/client/k8s.go:462-501 | Seven mounts with the same names, at /proc/<name> and /etc/localtime. |
| Defaults.VolumesMatchMounts | internal/gateserver/client/k8s.go:284-501 | Volumes and mounts pair up position by position, and the volume names are distinct. |
| Defaults.NewProbe | internal/gateserver/client/k8s.go:46-56 | Path /hs, port 8080, failureThreshold 12, initialDelaySeconds 60, periodSeconds 5, timeoutSeconds 3, successThreshold 3. |
| Defaults.CreateReadinessProbe | internal/gateserver/client/k8s.go:444-460 | The probe carries the settings unchanged, and they can be read back from it. |
| Defaults.DefaultReadinessProbe | internal/gateserver/client/k8s.go:435 | The container's probe is HTTP GET /hs on 8080 with the fixed thresholds and delays. |
| Defaults.DefaultHostAliases | internal/gateserver/client/k8s.go:264-277 | Exactly two aliases, both for 127.0.0.1. The first lists localhost.localdomain, localhost4 and localhost4.localdomain4; the second has no host names. |
| Sysctls.ParseSegment | internal/gateserver/client/k8s.go:251-257 | A segment gives a sysctl iff its trimmed text contains `=`. The name and value contain no `=`. The trimmed text starts with name=value, followed by its end or another `=`. |
| Sysctls.SegmentSysctls | internal/gateserver/client/k8s.go:253-257 | A segment contributes at most one sysctl, exactly one iff it parses, and that one is the parsed sysctl. |
| Sysctls.ParseSegments | internal/gateserver/client/k8s.go:250-258 | There is at most one sysctl per segment. |
| Sysctls.ParseSysctls | internal/gateserver/client/k8s.go:248-258 | There are never more sysctls than commas plus one. |
| Sysctls.ParseSegmentsMembers | internal/gateserver/client/k8s.go:250-258 | A sysctl is in the parsed list exactly when some segment parses to it. |
| Sysctls.ParseSegmentsAppend | internal/gateserver/client/k8s.go:250-258 | Parsing concatenated segment lists concatenates the results, so input order is kept. |
| Sysctls.ParseSysctlsAround | internal/gateserver/client/k8s.go:248-258 | `a,b` parses to the sysctls of `a` followed by those of `b`. |
| Sysctls.ParseSysctlsSingle | internal/gateserver/client/k8s.go:248-258 | A comma-free string gives at most its one segment's sysctl. |
| Sysctls.ParseSysctlsEmpty | internal/gateserver/client/k8s.go:248-258 | The empty string gives no sysctls. |
| Sysctls.ParseSegmentPair | internal/gateserver/client/k8s.go:252-256 | An already trimmed `name=value` with a single `=` gives exactly (name, value). |
| Sysctls.ParseSegmentKeepsInnerSpace | internal/gateserver/client/k8s.go:252 | White space next to `=` stays in the name and the value. |
| Sysctls.ParseSegmentDropsExtraFields | internal/gateserver/client/k8s.go:253-255 | `name=value=rest` gives (name, value). |
| Sysctls.ParseSegmentBareEquals | internal/gateserver/client/k8s.go:252-256 | `=` gives an empty name and an empty value. |
| Sysctls.ParseSegmentBlank | internal/gateserver/client/k8s.go:252-253 | A blank segment is dropped. |
| Strings.TrimLeft | internal/gateserver/client/k8s.go:252 | The result is the longest suffix that starts with a non-space character. |
| Strings.TrimRight | internal/gateserver/client/k8s.go:252 | The result is the longest prefix that ends with a non-space character. |
| Strings.TrimSpace | internal/gateserver/client/k8s.go:252 | The result is no longer than the input, and it neither starts nor ends with white space. |
| Strings.TrimSpaceIsSlice | internal/gateserver/client/k8s.go:252 | The result is a contiguous slice of the input. Everything before it and everything after it is white space. |
| Strings.TrimSpaceFixedPoints | internal/gateserver/client/k8s.go:252 | A string with no white space at either end is unchanged. An all-space string trims to empty. |
| Strings.TrimSpaceIdempotent | internal/gateserver/client/k8s.go:252 | Trimming twice gives the same result as trimming once. |
| Strings.SplitPieces | internal/gateserver/client/k8s.go:249 | Splitting gives one more piece than there are separators, and no piece contains the separator. |
| Strings.JoinSplit | internal/gateserver/client/k8s.go:249 | Joining the pieces of a split gives back the input. |
| Strings.SplitJoin | internal/gateserver/client/k8s.go:249 | Splitting a join of separator-free pieces gives back the pieces. |
| Strings.SplitNoSeparator | internal/gateserver/client/k8s.go:249 | A separator-free string is a single piece. |
| Strings.SplitAround | internal/gateserver/client/k8s.go:249 | A separator between `a` and `b` splits them into their own pieces. |
| Strings.SplitFront | internal/gateserver/client/k8s.go:252-255 | The first two pieces come first in the input, with a separator between them, followed by the end of the input or another separator. |
| Strings.HasPrefix | internal/gateserver/client/k8s.go:361-363 | `s` starts with `prefix` iff `s` is `prefix` followed by the rest of `s`. |
| Strings.Pieces | internal/gateserver/client/k8s.go:441 | The text between the matches of the left-to-right scan has one more piece than there are matches. |
| Strings.PiecesJoinBack | internal/gateserver/client/k8s.go:441 | Putting the pattern back between the pieces gives the input back. |
| Strings.ReplaceAllIsJoin | internal/gateserver/client/k8s.go:441 | `ReplaceAll` gives the pieces between the matches, joined by the replacement. |
| Strings.ReplaceAllLength | internal/gateserver/client/k8s.go:441 | Each replacement changes the length by the difference between the replacement and pattern lengths. |
| Strings.MatchesIffContains | internal/gateserver/client/k8s.go:441 | The left-to-right scan replaces something iff the pattern occurs. |
| Strings.ReplaceAllUnchangedIff | internal/gateserver/client/k8s.go:441 | With a replacement of a different length, the result equals the input iff the pattern does not occur. |
| Strings.ReplaceAllAbsent | internal/gateserver/client/k8s.go:441 | With nothing matched, replacing is the identity. |
| Strings.ReplaceAllCharwise | internal/gateserver/client/k8s.go:691 | Replacing one character by one character works position by position. |

## Left out

- The cluster operations are left out because they are network calls to the
  Kubernetes API server through a client set. These are `QueryAllPods`,
  `QueryAllPodsWithLabel`, `QueryAppPods`, `DeployAppPod`, `UpdateAppPod`,
  `DeleteAppPod`, `ForceDeleteAppPod`, `CreateNamespace`, the ConfigMap calls,
  `ExecCommand`, `GetNodeByIP`, `GetAppPodLog` and `CreateService`. Only the
  service name helper used by `CreateService` is modelled.
- `NewKubernetesConf` and `rest.Config` are left out because they are transport
  configuration. `Conf` keeps only its string fields.
- The `log.Infof` calls are left out because they are logging side effects.
- The remote CMDB interface (`internal/gateserver/remote/cmdb.go`) is left out
  because it has no logic. The plain data records in
  `internal/gateserver/remote/` and `internal/atlas/model/` are left out because
  they have no behaviour; `InstanceSpec` also holds float32 fields.
- `EnvJson` is read nowhere in the builder, so it has no effect. It is still a
  field of the template (`Client.PodIgnoresUncopiedFields`).
- Strings are sequences of characters, not bytes. The builder splits and
  replaces only on ASCII characters, where the two views agree.
- Strings.IsSpace: Go's `strings.TrimSpace` also removes U+0085, U+00A0 and
  every other Unicode White_Space character (the space separators, U+2028 and
  U+2029). The model trims ASCII white space only.
- Strings.EqualFold: only ASCII case folding is modelled. This is exact for the
  one comparison made, against "pro", because no non-ASCII character folds to
  p, r or o.
- Naming.IsDigit: `unicode.IsDigit` is applied to the first byte. No byte value
  outside `0`-`9` is a Unicode digit, so the ASCII test is exact.
- Naming.Convert: Go's map iteration order is unspecified. The label map is
  modelled as its entries in whatever order the iteration visits them.
- Client.CreatePod: a nil template panics at k8s.go:213 and a nil `K8sQuota`
  panics at k8s.go:226 and k8s.go:389. The model's template and quota are
  records that cannot be nil, so these panics are not modelled. The model also
  treats the quota's getters as pure, returning the same value on every call.
  The source calls some of them twice (k8s.go:389-390, k8s.go:404 and 415).
- The `int32` probe settings and port are unbounded integers. The constants
  used fit easily.
