# swarmkit-client: service-spec merge, IPAM builder, entity resolver and handler decisions

swarmkit-client is an HTTP front end to a swarmkit orchestrator. Clients send loosely
typed, flat requests. The front end turns them into the orchestrator's versioned,
strongly typed specifications. This project is a Dafny model of the part of that
translation that makes decisions:

- **The merge engine** (`merge` and its parsers). A flat `createSpec` request is applied
  part by part to a service specification, in a fixed order: annotations, mode,
  container, ports, networks, restart policy, update policy, placement, bind mounts,
  volume mounts. A field left at its zero value means "leave unchanged". A block the
  source reaches through a nil pointer is allocated only when a field for it is
  supplied; the update and placement blocks and the restart durations wait until the
  value is known to be good, while the restart condition and the resource fields
  allocate their block before the value is validated, so a refused value leaves the
  block allocated. The first error stops the merge, and the writes made before it stay. The
  specification is a `class` (`SwarmApi.ServiceSpec`) whose fields the parser methods
  update in place. Each parser method is proved equal to a function on specification
  values, and the properties are proved about those functions.
- **The resource parser** (`parseResource`). Memory reservation and limit, then CPU
  reservation and limit. CPU counts are read as exact rationals, as Go's
  `big.Rat.SetString` reads its decimal and `a/b` forms, and must come to a whole
  number of nano-CPUs.
- **The IPAM builder** (`processIPAMOptions`). It builds one address configuration
  per subnet. Each configuration takes the first gateway inside the subnet and the
  first IP range whose network address is inside it. The candidate lists are arrays,
  and the source's `append(s[:i], s[i+1:]...)` shifts them in place.
- **The entity resolver** (`GetService`, `GetNode`, `GetNetwork`). The input is tried
  as an exact ID first. Failing that, the entities are listed by name, and exactly one
  must match.
- **The handlers' decision logic**:
  - service create, update and inspect;
  - the cluster update, which rewrites the acceptance-policy whitelist in place;
  - node inspect, accept, activate and remove;
  - task list, inspect and remove.

  Each handler is modelled up to the request it would submit to the control plane,
  or the error it would report.

Foreign code is passed in as function-typed parameters, and the model assumes nothing
about it beyond its type, with one exception named below:

- the port parser;
- swarmctl's network resolver;
- `time.ParseDuration` and `ParseString`;
- go-units' `RAMInBytes`;
- `ca.FormatRole`;
- `net.ParseCIDR`, `net.ParseIP` and `IPNet.Contains` (CIDR notation as in section 3.1
  of RFC 4632 and section 2.3 of RFC 4291);
- the control plane's get, list and remove calls.

The exception is the port parser. `merge` hands it the whole specification
(`api/parse_spec.go:23`), but the model's `ParseSpec.PortParser` takes only the
requested ports and the current endpoint, and returns a new endpoint and an error. So
the model assumes that parsing ports writes the endpoint and nothing else. The lemmas
that say a merge keeps the resources, the mode or the name and image
(`ParseSpec.MergeKeepsResources`, `ParseSpec.MergeKeepsMode`,
`ParseSpec.MergeNameAndImage`, and the "no resources" clause of
`HandlersService.CreateServiceSpec`) hold under that assumption.

Go's nil pointers are `Option`s. `reflect.DeepEqual` on specifications is structural
equality of datatype values. Go's `uint64(...)` conversion of a signed duration is
written out as wrap-around modulo 2^64. Go's `len` of a string counts the bytes of its
UTF-8 encoding, so every "`len(...) > 1`" guard is written with `Common.Utf8Len`: a
single non-ASCII character passes it. The "`len(...) > 0`" guards are written as
"not blank", which counts the same in bytes and in characters.

Some behaviour of the code is easy to miss; the model follows the code:

- `merge` never calls `parseResource` (`api/parse_spec.go:10-47`), so resource
  requirements are never set through service create or update. This is proved as
  `ParseSpec.MergeKeepsResources` and `HandlersService.CreateServiceSpec`.
  `parseResource` is still modelled on its own.
- A gateway or range candidate can serve more than one subnet. The removal shifts
  entries inside the request's own arrays, whose length never changes
  (`api/handlers_network.go:146-169`):
  - a last candidate, once matched, is still there for the next subnet
    (`HandlersNetwork.LastGatewayReused`);
  - a removal anywhere else leaves the last candidate doubled.
- The heartbeat period is parsed from the certificate-expiry string, not from the
  heartbeat string (`api/handlers_cluster.go:145-153`).
- The network driver is named after the network, not after the requested driver
  (`api/handlers_network.go:74-82`).
- `inspectService` shows only tasks observed running and has no `all` flag
  (`api/handlers_service.go:123-127`).
- `activateNode` never assigns the availability. It submits the stored specification
  unchanged (`api/handlers_node.go:129-139`).
- The `a/b` form of a CPU count reads each side as an integer in base 0
  (`api/parse_spec_resource.go:66`): a leading "0" makes a side octal, so "010/4" is
  two CPUs and "08/1" is refused (`ParseSpecResource.OctalFractionCPU`,
  `ParseSpecResource.BadOctalCPU`).

## Model

| member | source | states |
|---|---|---|
| Common.TrimSpaceEmptyIffBlank | api/parse_spec.go:11 | `strings.TrimSpace` gives the empty string exactly when every character is white space, so each "`len(TrimSpace(x)) > 0`" guard means "x is not blank" |
| Common.TrimSpaceShape | api/parse_spec.go:11 | the trimmed string is a contiguous piece of the input with no white space at either end, and everything cut off is white space |
| Common.Utf8LenAboveOne | api/handlers_service.go:144 | a string is longer than one byte, as Go's `len` counts, exactly when it has two characters or more or one non-ASCII character; it has no bytes exactly when it is empty |
| Common.Utf8LenOfAscii | api/handlers_service.go:144 | on ASCII text the byte length is the character count |
| Common.IndexOf | api/parse_spec_bind.go:18 | the first occurrence of a character: none exactly when it does not occur, otherwise it is at that index and nowhere before |
| Common.Filter | api/handlers_task.go:33-37 | the kept elements are no more than the input, they all pass the predicate and come from the input, and every input element that passes is kept |
| Common.FilterLoop | api/handlers_task.go:33-37 | the append-in-a-loop the handlers run computes exactly `Filter` of its input |
| Common.FilterIsSubsequence | api/handlers_service.go:123-127 | filtering keeps the input's order: the result is a subsequence of the input |
| SwarmApi.ServiceSpec.constructor | api/handlers_service.go:162 | a fresh specification object holding a copy of the given value, as `Spec.Copy()` makes |
| ParseSpec.AnnotateStep | api/parse_spec.go:11-16 | a non-blank name is stored untrimmed and a blank one keeps the old name; a non-empty label map replaces the labels; nothing else changes |
| ParseSpec.SwitchMode | api/parse_spec.go:50-64 | "global" gives global mode; "replicated" gives replicated mode, keeping an existing replica count or starting from zero; any other string keeps the mode |
| ParseSpec.ModeStep | api/parse_spec.go:49-75 | the merge fails exactly when a positive replica count meets a mode that is not replicated after the switch, and the switch stays made; otherwise a positive count is stored; only the mode changes |
| ParseSpec.ParseMode | api/parse_spec.go:49-75 | the in-place mode parser leaves the specification and error that `ModeStep` gives |
| ParseSpec.PortsStep | api/parse_spec.go:23-25 | with a port parser that writes only the endpoint, the ports step can change only the endpoint block, and its error is the parser's |
| ParseSpec.Merge | api/parse_spec.go:10-47 | the in-place merge, step by step, leaves the specification and the error of the specification-level merge, which stops at the first failing step and keeps earlier writes |
| ParseSpec.MergeAbsent | api/spec.go:4-27 | an empty request (every field absent) changes nothing and cannot fail |
| ParseSpec.MergeKeepsResources | api/parse_spec.go:10-47 | whatever the request, the merge leaves the resource requirements as they were |
| ParseSpec.MergeKeepsMode | api/parse_spec.go:49-75 | a request with no known mode string and no replica count leaves the service mode unchanged through the whole merge |
| ParseSpec.MergeNameAndImage | api/parse_spec_container.go:10-12 | after a successful merge the name and the image are the request's when non-blank, and otherwise the old ones |
| ParseSpec.MergeStopsAtMode | api/parse_spec.go:17-19 | a replica count outside replicated mode fails the merge with that error; only the annotations and the mode switch are applied |
| ParseSpec.MergeIdempotent | api/parse_spec.go:10-47 | for a request without mounts whose ports parse stably, merging the request again into the merged result changes nothing and succeeds |
| ParseSpecContainer.ContainerStep | api/parse_spec_container.go:9-23 | the image is set when non-blank (untrimmed), and args and env are replaced when non-empty; the mounts and everything outside the container are kept |
| ParseSpecContainer.ContainerStepIdempotent | api/parse_spec_container.go:9-23 | applying the container fields twice is the same as applying them once |
| ParseSpecContainer.ParseContainer | api/parse_spec_container.go:9-23 | the in-place container parser never fails and leaves what `ContainerStep` gives |
| ParseSpecNetwork.NetworkStep | api/parse_spec_network.go:11-25 | a blank network changes nothing; otherwise a resolved network replaces all attachments with one targeting its ID, and a resolver error is reported with the specification unchanged |
| ParseSpecNetwork.ParseNetworks | api/parse_spec_network.go:11-25 | the in-place network parser leaves the specification and error that `NetworkStep` gives |
| ParseSpecRestart.ConditionOf | api/parse_spec_restart.go:19-28 | a string names a restart condition exactly when it is one of "none", "failure" and "any", and then it is that condition's spelling; the comparison is exact, so a padded string names none |
| ParseSpecRestart.ConditionNameRoundTrip | api/parse_spec_restart.go:19-28 | every restart condition is named by its spelling and by no other string |
| ParseSpecRestart.ConditionStep | api/parse_spec_restart.go:13-29 | a non-blank condition allocates the restart block, then sets the condition or fails naming it, leaving the block allocated |
| ParseSpecRestart.DurationStep | api/parse_spec_restart.go:31-60 | a non-blank delay or window is parsed before anything is allocated; a parse error leaves the specification unchanged; on success the duration is stored in its own slot of the (lazily allocated) block, the other slots kept |
| ParseSpecRestart.MaxAttemptsStep | api/parse_spec_restart.go:43-48 | zero attempts means "not supplied"; a positive count is stored in the (lazily allocated) block |
| ParseSpecRestart.RestartStep | api/parse_spec_restart.go:12-63 | only the restart block changes; an empty request changes nothing; the error cases are named; on success each supplied field sits in its own slot and every unsupplied slot keeps its value |
| ParseSpecRestart.RestartStepSpec | api/parse_spec_restart.go:12-63 | in every case: the error is the first of an unknown condition, an unparsable delay and an unparsable window, and there is none otherwise; a field is stored exactly when it is supplied, valid and no earlier field failed; every other slot holds the old block's value, or the zero value in a block the step allocates; the block is allocated exactly when it existed, a condition is supplied, or a later field is stored |
| ParseSpecRestart.ParseRestart | api/parse_spec_restart.go:12-63 | the in-place restart parser leaves the specification and error that `RestartStep` gives |
| ParseSpecUpdate.UpdateStepSpec | api/parse_spec_update.go:11-31 | only the update block changes; with neither field supplied nothing changes; it fails exactly on a non-blank delay that does not parse; the block is allocated exactly when it already was or a positive parallelism or a delay that parses is written, so a failing delay leaves a nil block nil; each supplied field is stored, and each slot not written keeps the old block's value, or zero in a freshly allocated block |
| ParseSpecUpdate.ParseUpdate | api/parse_spec_update.go:11-31 | the in-place update parser leaves the specification and error of the update step |
| ParseSpecPlacement.PlacementStep | api/parse_spec_placement.go:5-14 | a non-empty constraint list becomes the placement's constraints; an empty one changes nothing; only the placement changes |
| ParseSpecPlacement.ParsePlacement | api/parse_spec_placement.go:5-14 | the in-place placement parser never fails and leaves what `PlacementStep` gives |
| ParseSpecBind.BindOf | api/parse_spec_bind.go:18-27 | an entry denotes a writable bind mount exactly when it contains ':' |
| ParseSpecBind.BindOfRoundTrip | api/parse_spec_bind.go:18 | the split is at the first ':': the source holds no ':' and source + ":" + target is the entry again |
| ParseSpecBind.AppendBinds | api/parse_spec_bind.go:17-28 | mounts are appended in input order after the existing ones, which are kept; the first entry without ':' stops the loop, naming that entry, with earlier mounts already appended |
| ParseSpecBind.BindStep | api/parse_spec_bind.go:13-32 | only the container's mounts change; an empty bind list changes nothing |
| ParseSpecBind.AppendBindsSucceeds | api/parse_spec_bind.go:17-21 | the bind loop succeeds exactly when every entry contains ':' |
| ParseSpecBind.BindRepeatAppends | api/parse_spec_bind.go:22-27 | mounts accumulate: applying a well-formed bind list twice appends its mounts twice, so the result differs |
| ParseSpecBind.ParseBind | api/parse_spec_bind.go:13-32 | the in-place bind loop leaves the specification and error that `BindStep` gives |
| ParseSpecVolume.VolumeOf | api/parse_spec_volume.go:18-25 | an entry denotes a mount exactly when it has no ':', and then it is a writable volume mount targeting the entry |
| ParseSpecVolume.AppendVolumes | api/parse_spec_volume.go:17-26 | mounts are appended in input order after the existing ones; the loop succeeds exactly when no entry contains ':', and otherwise stops at the first such entry, naming it |
| ParseSpecVolume.VolumeStep | api/parse_spec_volume.go:13-30 | only the container's mounts change; an empty volume list changes nothing |
| ParseSpecVolume.ParseVolume | api/parse_spec_volume.go:13-30 | the in-place volume loop leaves the specification and error that `VolumeStep` gives |
| ParseSpecResource.ParseRat | api/parse_spec_resource.go:66 | every rational read from a string has a positive denominator |
| ParseSpecResource.Base0Decimal | api/parse_spec_resource.go:66 | an integer side of a fraction that does not start with "0" is read in base 0 as plain decimal digits, with their decimal value; anything else in it is refused |
| ParseSpecResource.FractionSpec | api/parse_spec_resource.go:66 | "a/b" denotes a rational exactly when both sides read in base 0, the numerator after an optional sign, and the denominator is not zero; the rational is the signed numerator over the denominator |
| ParseSpecResource.ParseCPUSpec | api/parse_spec_resource.go:64-76 | an unreadable count fails as invalid; a count that is not a whole number of nano-CPUs fails on precision; otherwise the result times the denominator is exactly the count times 10^9 |
| ParseSpecResource.DecimalCPU | api/parse_spec_resource.go:66-74 | a plain decimal with at most nine fractional digits is accepted, and its nano-CPU count is its digits scaled to nine fractional places |
| ParseSpecResource.TooPreciseCPU | api/parse_spec_resource.go:70-73 | a decimal whose last digit, in the tenth fractional place or later, is not zero is refused on precision |
| ParseSpecResource.TrailingZeroCPU | api/parse_spec_resource.go:66-74 | appending a zero to a decimal changes neither acceptance nor the nano-CPU value |
| ParseSpecResource.CPUOfRat | api/parse_spec_resource.go:70-74 | the CPU result is decided by the rational the input denotes: inexact gives the precision error, exact gives the quotient |
| ParseSpecResource.HalfCPU | api/parse_spec_resource.go:64-76 | "0.5" is 500000000 nano-CPUs |
| ParseSpecResource.NegativeHalfCPU | api/parse_spec_resource.go:64-76 | "-0.5" is -500000000 nano-CPUs: the sign is not refused |
| ParseSpecResource.QuarterCPU | api/parse_spec_resource.go:64-76 | the fraction "1/4" is 250000000 nano-CPUs |
| ParseSpecResource.OctalFractionCPU | api/parse_spec_resource.go:64-76 | "010/4" is read with an octal numerator, eight quarters: 2000000000 nano-CPUs |
| ParseSpecResource.BadOctalCPU | api/parse_spec_resource.go:66-69 | "08/1" is refused as invalid: a side with a leading "0" is octal and "8" is no octal digit |
| ParseSpecResource.PrefixedFractionRat | api/parse_spec_resource.go:66 | "0x10/2" is read with a hexadecimal numerator, as sixteen halves |
| ParseSpecResource.SpacedCPU | api/parse_spec_resource.go:66-69 | " 0.5" is refused as invalid, because the count is not trimmed before it is read |
| ParseSpecResource.WithBlock | api/parse_spec_resource.go:14-19 | allocating and writing one block sets that block and keeps the other block and everything outside the resources |
| ParseSpecResource.MemoryStep | api/parse_spec_resource.go:13-23 | memory applies only when its trimmed text is longer than one byte; the block is allocated before the parse, and stays allocated when the parse fails; only that block changes |
| ParseSpecResource.CPUStep | api/parse_spec_resource.go:37-47 | a non-blank CPU count allocates its block before the parse, and the block stays allocated when the parse fails; on success the block holds the count's nano-CPUs; only that block changes |
| ParseSpecResource.ResourceStepSpec | api/parse_spec_resource.go:12-62 | only the resources change; the error is the first failing value's; nothing supplied changes nothing; on success each block holds exactly its supplied values over the old ones, and is allocated exactly when it was before or something was supplied for it |
| ParseSpecResource.Allocate | api/parse_spec_resource.go:14-19 | the two nil checks leave the block allocated and its contents and everything else unchanged |
| ParseSpecResource.ParseResourceMemory | api/parse_spec_resource.go:78-86 | a parse error is returned with the block untouched; otherwise the block's memory is the parsed byte count |
| ParseSpecResource.ParseResourceCPU | api/parse_spec_resource.go:64-76 | a CPU error is returned with the block untouched; otherwise the block's nano-CPUs are the parsed count |
| ParseSpecResource.ParseResource | api/parse_spec_resource.go:12-62 | the in-place resource parser leaves the specification and error of the resource step |
| HandlersNetwork.To4 | api/handlers_network.go:141-144 | a four-byte form has four bytes; a four-byte address is its own; a sixteen-byte address has one exactly when its first twelve bytes are the IPv4-mapped prefix, and it is the last four bytes; addresses of other lengths have none |
| HandlersNetwork.FirstGateway | api/handlers_network.go:146-154 | the first gateway candidate that parses as an IP inside the subnet, with no earlier one matching; none if none matches |
| HandlersNetwork.FirstRange | api/handlers_network.go:156-169 | the first range candidate whose network address is inside the subnet, with every earlier one parsing and missing; a malformed candidate met first is a CIDR error naming it |
| HandlersNetwork.ShiftOut | api/handlers_network.go:150 | removal inside a fixed-length array: entries before the index stay, entries after it move down one place, and the last entry stays as it was |
| HandlersNetwork.SubnetStep | api/handlers_network.go:136-176 | a subnet that is not CIDR fails with nothing touched; otherwise the gateway array is shifted at the first matching gateway, a malformed range met first fails, and otherwise the configuration for the subnet is added with the first matching gateway and range (or "") and the range array shifted at that range |
| HandlersNetwork.ShiftOutLast | api/handlers_network.go:147-150 | removing the last candidate leaves the array as it was |
| HandlersNetwork.LastGatewayReused | api/handlers_network.go:146-154 | one gateway candidate inside a subnet given twice is assigned to both configurations and is still in the array afterwards |
| HandlersNetwork.BuildConfigs | api/handlers_network.go:134-177 | the build adds one configuration per subnet in order, naming the subnet as given and its address family; earlier configurations and the array lengths are kept; it fails exactly when it stops short |
| HandlersNetwork.IPAMOfSpec | api/handlers_network.go:120-185 | no subnets gives the IPAM driver alone when its trimmed name is longer than one byte, or nothing; otherwise one configuration per subnet, in order, with the driver when named; any subnet that is not CIDR fails the build |
| HandlersNetwork.IPAMError | api/handlers_network.go:136-162 | building the IPAM options can fail only with a CIDR error |
| HandlersNetwork.BuildError | api/handlers_network.go:134-177 | a build that fails reports a CIDR error |
| HandlersNetwork.NetworkSpecOfSpec | api/handlers_network.go:55-96 | a blank name is refused; on success the specification has the requested name, a driver exactly when the trimmed driver name is longer than one byte, that driver named after the network, options exactly when some are given, and the IPAM options as built |
| HandlersNetwork.NetworkInfo.constructor | api/handlers_network.go:110-118 | a decoded request with its gateway and range candidates in two fresh, distinct arrays |
| HandlersNetwork.ShiftOutInPlace | api/handlers_network.go:150 | the in-place removal turns the array into `ShiftOut` of its old contents |
| HandlersNetwork.TakeGateway | api/handlers_network.go:146-154 | returns the first matching gateway (or "") and leaves the array shifted at it (or unchanged) |
| HandlersNetwork.TakeRange | api/handlers_network.go:156-169 | returns the first matching range (or "") with the array shifted at it, or the CIDR error with the array unchanged |
| HandlersNetwork.ProcessIPAMOptions | api/handlers_network.go:120-185 | the result is the modelled IPAM options or their error, an error comes with no options, and the arrays end as the build leaves them |
| HandlersNetwork.CreateNetworks | api/handlers_network.go:55-96 | the handler yields the network specification `NetworkSpecOf` describes, or its error |
| Swarmkit.Resolve | swarmkit/swarmkit.go:35-62 | an exact-ID hit wins; otherwise a failed listing gives its error; no match gives not-found; more than one gives ambiguity with the exact count; one gives that entity |
| Swarmkit.ExactIDIgnoresNames | swarmkit/swarmkit.go:37 | when the input is an exact ID, the name listing plays no part in the result |
| Swarmkit.ResolveSound | swarmkit/swarmkit.go:65-92 | a resolved entity is the exact-ID hit or the listing's single entity; a failure is the listing's error, not-found or ambiguity |
| HandlersService.CreateService | api/handlers_service.go:63-85 | the handler yields the specification `CreateServiceOf` describes: the guard, the baseline, the merge |
| HandlersService.CreateServiceSpec | api/handlers_service.go:63-85 | a blank name or image is refused before the merge; a created specification has the request's name and image and no resources, and it is replicated with one replica when the request names no mode and no replica count |
| HandlersService.UpdateService | api/handlers_service.go:144-172 | the handler yields the submission `UpdateServiceOf` describes |
| HandlersService.UpdateServiceSpec | api/handlers_service.go:144-179 | an ID whose trimmed form has at most one byte is refused; a failed get or merge passes its error on; a merge that leaves the stored specification as it was is refused as making no change; otherwise a submission is made, for the stored service's ID and version, with the merged specification, which differs from the stored one |
| HandlersService.UpdateEmptyRequest | api/handlers_service.go:163-172 | an empty update request is refused as making no change |
| HandlersService.UpdateRepeatNoChange | api/handlers_service.go:163-172 | repeating the request a stored specification came from (without mounts) is refused as making no change |
| HandlersService.InspectService | api/handlers_service.go:109-127 | the get error or the listing error is passed on; when both succeed, the result is the service with exactly its tasks observed running, in listing order |
| HandlersService.RunningTasksSpec | api/handlers_service.go:123-127 | the tasks shown are all running and come from the listing, every running task is shown, and the order is kept |
| HandlersCluster.PolicyRewrites | api/handlers_cluster.go:83-104 | neither the reset nor switching on a role changes which roles the policies are for; after the reset no policy auto-accepts; after switching on a role a policy auto-accepts exactly when it did before or it is for that role |
| HandlersCluster.FreshSpec | api/handlers_cluster.go:105-112 | the roles for which policies are appended are new, distinct, and come from the whitelist, and together with the existing roles they cover the whitelist |
| HandlersCluster.AdmitSpec | api/handlers_cluster.go:96-112 | one role appends a policy exactly when the role is new, and switches on exactly the policies of that role besides those already on |
| HandlersCluster.AdmitAllError | api/handlers_cluster.go:88-95 | the role loop fails exactly when some role is unrecognized, and then it names the first one |
| HandlersCluster.AdmitAllFormatted | api/handlers_cluster.go:88-113 | a recognized whitelist runs the loop to the end over its formatted roles |
| HandlersCluster.AdmitRolesRoles | api/handlers_cluster.go:96-112 | existing policies keep their places and roles; one policy per new role is appended, in whitelist order, a repeated role once |
| HandlersCluster.AdmitRolesAccept | api/handlers_cluster.go:96-112 | after the loop a policy auto-accepts exactly when it did before or its role was admitted |
| HandlersCluster.WhitelistSpec | api/handlers_cluster.go:81-114 | an empty whitelist changes nothing; an unrecognized role fails, naming the first; after success a policy auto-accepts exactly when its role is whitelisted, every whitelisted role has a policy, and the roles are the old ones plus the new ones |
| HandlersCluster.ToUint64Spec | api/handlers_cluster.go:152 | converting a 64-bit duration to uint64 keeps non-negative values and wraps negative ones to the top half of the range |
| HandlersCluster.UpdateClusterSpec | api/handlers_cluster.go:75-153 | a get, whitelist or duration error is passed on, and otherwise the update succeeds; the submitted cluster keeps the stored ID and version and gets the rewritten policies; the certificate expiry is the parsed certificate-expiry string when that is longer than one byte, and is kept otherwise; the task-history limit changes only for a positive value; the heartbeat is read from the certificate-expiry string when the trimmed heartbeat string is longer than one byte; an empty request changes nothing |
| HandlersCluster.ClusterSpec.constructor | api/handlers_cluster.go:80 | a specification object holding the stored cluster's specification |
| HandlersCluster.AdmitInPlace | api/handlers_cluster.go:96-112 | the in-place scan for one role leaves the policies `Admit` gives and changes nothing else |
| HandlersCluster.ResetInPlace | api/handlers_cluster.go:83-85 | the reset loop switches every policy off, in place, keeping its role, and changes nothing else |
| HandlersCluster.ApplyWhitelist | api/handlers_cluster.go:81-114 | the in-place reset and role loops leave the policies and error of the whitelist rewrite and change nothing else |
| HandlersCluster.UpdateClusters | api/handlers_cluster.go:55-153 | the handler yields the cluster `UpdateClusterOf` describes, or its error |
| HandlersTask.AllFlag | api/handlers_task.go:25-27 | the `all` flag is set exactly by the query value "1" |
| HandlersTask.ListTasks | api/handlers_task.go:16-40 | the listing error is passed on; otherwise the tasks shown under the flag, in order |
| HandlersTask.ShownSpec | api/handlers_task.go:33-37 | with `all` every task is shown as listed; otherwise exactly the tasks desired at most running, as an order-preserving subsequence |
| HandlersTask.InspectTask | api/handlers_task.go:43-56 | the task is fetched by the raw ID, with no name resolution |
| HandlersTask.RemoveTask | api/handlers_task.go:59-70 | the removal error is passed on; on success the raw ID is answered back |
| HandlersNode.InspectNode | api/handlers_node.go:30-66 | resolution and listing errors are passed on; when both succeed, the result is the resolved node with the tasks filtered for it |
| HandlersNode.OnNodeSpec | api/handlers_node.go:55-64 | the tasks shown run on the node and respect the flag; every task of the node desired at most running is shown; the order is kept |
| HandlersNode.AcceptNode | api/handlers_node.go:70-95 | the handler yields the update `AcceptNodeOf` describes |
| HandlersNode.AcceptNodeSpec | api/handlers_node.go:79-93 | accepting fails as already accepted exactly when the resolved node is accepted; an update is for the resolved node's ID and version and changes only the membership, to accepted |
| HandlersNode.AcceptTwice | api/handlers_node.go:80-83 | once the store holds the accepted node, accepting it again is refused |
| HandlersNode.ActivateNode | api/handlers_node.go:118-144 | the handler yields the update `ActivateNodeOf` describes |
| HandlersNode.ActivateNodeSpec | api/handlers_node.go:129-139 | activation fails as already active exactly when the resolved node is active; otherwise it submits the stored specification unchanged, still not active |
| HandlersNode.RemoveNode | api/handlers_node.go:98-115 | resolution errors are passed on; otherwise the node is removed by the resolved ID, not by the input |
| HandlersNode.RemoveByName | api/handlers_node.go:105-110 | a node named uniquely, with no exact-ID hit, resolves to that node, so it is removed by its own ID |

## Left out

- HTTP routing, request decoding, JSON rendering and status codes (`api/server.go`, `api/primary.go`, `api/utils.go`, `DecoderRequest`, `errResponse`): the handlers are modelled from the decoded request to the submission or error.
- The event stream and its concurrency (`api/events.go`), the command line (`cmd/root.go`) and the gRPC dial (`swarmkit/swarmkit.go:1-32`, `api/swarmkit.go`): transport and process setup.
- The list and plain inspect handlers in `api/handlers.go`, and the list handlers for services, nodes, networks and clusters: they pass the control plane's answer through with no decision.
- The `deleteService` and `removeNetworks` handlers: their bodies are empty.
- The control plane's create, update and remove calls, and the answers they give: each handler ends with what it would submit.
- The remote name filter's matching rule (prefix or exact name), version-conflict checks and `GetCluster`: the store is abstract.
- The bcrypt hashing of the join secret (`api/handlers_cluster.go:116-128`), and the missing return after its error: hashing is foreign and randomized, and the policies' secrets are not modelled.
- `parsePorts`, swarmctl's network resolver, `time.ParseDuration`, `ParseString`, `RAMInBytes`, `ca.FormatRole`, `net.ParseCIDR`, `net.ParseIP` and `IPNet.Contains`: foreign code, given as parameters with no assumption about them beyond their types, except for the port parser below.
- ParseSpecResource.ParseRat: reads the sides of an `a/b` count in base 0 but refuses the `_` digit separators Go allows there; a count without '/' is read only as a plain signed decimal, so the base prefixes and exponents `big.Rat.SetString` accepts in that form are refused.
- ParseSpec.PortsStep: assumes the port parser writes only the endpoint, though `merge` hands it the whole specification (`api/parse_spec.go:23`); the port parser is not part of this model, and the lemmas that a merge keeps the resources, the mode, the name and the image rest on this assumption.
- ParseSpecResource.ParseCPU: does not model the wrap of `Num().Int64()` for counts beyond 64 bits; the result is the exact integer.
- Common.IsSpace: covers only the Latin-1 white space of `unicode.IsSpace`; the wider Unicode spaces are not modelled.
- Common.Message: renders Go's `%q` as plain double quotes, without escaping.
- ParseSpecContainer.ParseContainer: assumes the task has a container runtime and does not model the nil dereference `GetContainer()` would cause otherwise. `createService` builds the container runtime before the merge (`api/handlers_service.go:75-79`); for `updateService`, which merges into a copy of the stored specification (`api/handlers_service.go:161-163`), the model assumes the stored service has one.
- HandlersNode.AcceptNode: reports a resolution error, where the source goes on and dereferences the nil node (a panic); nothing is submitted in either case.
- Durations are nanosecond counts and are never range-checked; `uint64` wrap-around is modelled only where the source converts (the heartbeat).
