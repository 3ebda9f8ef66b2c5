# The IPv4 pod network, verified

This project models the multi-runtime pod network of the FLEDGE container service and proves
properties of it. The system has a control plane in Go and a data plane of eBPF programs in C. The
control plane hands every pod a block of eight addresses, puts each workload of the pod at one of
them, and fills the tables that the packet programs read. The packet programs classify, translate,
redirect and duplicate IPv4 frames between pods and inside a pod. Next to it stand the codecs of the
repository: the IPv6/UDP tunnel, the VLAN helpers and the header parsers.

The modules, from the bottom up:

- `Wrappers`, `Words`, `Frames`, `Xdp`: optional values, bytes, 32-bit registers on a little-endian host, the address masks, frames, packet buffers.
- `Checksum`: one's-complement addition as the reference, and `ipv4_check` in place.
- `Tc`: edits of a frame, clones, and the theorem that a shared buffer yields independent clones.
- `Classifier`, `Translate`, `SplitGeneric`, `SplitLocalhost`: the four packet programs.
- `AddressManager`, `Ebpf`: the block allocator, and the tables with their bounded updates.
- `PodState`, `PodInvariant`, `PodNetwork`: the manager's state, its invariant over every run, and the methods that maintain it.
- `DataPlane`, `Delivery`, `Localhost`, `Standalone`, `Outbound`: the programs attached to the tables, and the end-to-end theorems inside a pod, between pods, and off the node.
- `Tunnel`, `TunnelOutcome`, `TunnelChecksum`, `Vlan`, `Parsing`: the codecs.
- `Instances`: concrete inputs and reachable states on the failing side of the theorems below.

A method stands for code that changes a buffer, a table or a field step by step; its `ensures` ties
the new state to a function of the old one, and the lemmas say what that function means. `Inv` in
`PodState` is the invariant of the manager together with the kernel's tables; `Reachable(s)` says that
some run of successful steps from a new manager ends in `s`. A valid manager object is in a reachable
state: the constructor establishes that, and `InitPodNetwork` and `CreateVMTun` keep it. The theorems of `Delivery`, `Localhost` and
`Outbound` hold in every reachable state of every subnet, those of `Standalone` and `StandaloneOffNode`
where the subnet is a /24 whose base ends in `.0`.

What the code does differs from what one would expect of it in these places. Each has a theorem that
says exactly when the expectation is met.

- Fan-out to localhost visits four of the eight slots, so that it is complete only in pods of at most four workloads; `LocalhostReach` says who is reached otherwise. A request is recognised by the sender's address, masked to three octets and bit 0: it reaches everyone if and only if that is the gateway and there are at most four workloads (`RequestReachesAll`). A reply reaches everyone if and only if that is not the pod's base and there are at most four (`ReplyReachesAll`). On a standalone node the first of these conditions is that the sender's last octet is odd, and the second always holds (`StandaloneLocalhost`); `LocalhostLimits` ends in a reachable state with an even sender and in one with five workloads. In other subnets no request from outside the /24 of the gateway is recognised, odd sender or not (`FarRequest`, `FarSender`), and `ReservedBlock` ends in a state with such a pod.
- The redirect mesh is complete if and only if there are at most 64 pods (`MeshIffRoom`). A standalone /24 never has more than 31 (`StandaloneMesh`); `MeshBroken` ends in a reachable state of a /16 with 65.
- Egress drops a frame if and only if it sees the TCP reset bit at the fixed offset behind a 20-byte header: that is a reset if the datagram begins with a whole layer 4 header and has no IP options (`ResetSeen`). With options it can be an option byte, in a later fragment a byte of data, behind a shorter datagram a byte of padding (`OptionTakenForReset`, `FragmentTakenForReset`, `PaddingTakenForReset`). Every other frame between pods of a standalone node is delivered (`StandaloneDelivery`), and every other frame to an address outside its subnet leaves for the public interface (`StandaloneOffNode`). In other subnets a missing route and the reserved addresses of a /24 can get in the way (`EndToEnd`, `OffNode`); `ReservedBlock` ends in a reachable state with a pod whose own block is reserved, and `ReservedAddress` shows the frame that is lost there.
- Two pods share an allocator name if and only if an underscore can be read both as part of a name and as the separator (`NamesShared`, `SharedName`). With a hyphen in place of the underscore the same holds of the keys of their records (`KeysShared`, `SharedKey`).
- A push after a pop turns an 802.1AD tag into an 802.1Q tag (`PushUndoesPop`, `TagTypeLost`), and behind a third tag the parser does not look (`ParseAfterPush`, `ThirdTag`).
- The UDP parser has moved its cursor by the time it rejects a length field (`FailureLeavesCursor`, `CursorMovedOnFailure`).
- The tunnel sums its checksum field without clearing it, stops after 3072 bytes or before an odd last byte, loses a carry for a length beyond 15 bits, and stores a checksum of zero as it is, so that the checksum verifies only under a condition on the buffer before the call (`UdpChecksum`, `UdpChecksumEven`). There is a frame for each of these: `StaleHeadroom`, `PastTheLoop`, `OddLength`, `PastFifteenBits`, `ZeroStored`. It also goes on after a failed move of the head, and then aborts on every frame whose length field is right and fits 15 bits (`EncapsulatesIffRoom`, `NoHeadroom`). The receiving end goes on in the same way, so that a datagram without an Ethernet header inside is sent on unopened (`RttMeaning`, `NotUnpacked`).

## Model

| member | source | states |
|---|---|---|
| Words.MaskNet | xdp-progs/multi-runtime-cni-ipv4/bpf_tail_call_ipv4.c:49-51 | The mask `0xF8FFFFFF` on an address in network order, on a little-endian host, yields the base of the address's block of eight |
| Words.MaskLoc | xdp-progs/multi-runtime-cni-ipv4/bpf_tail_call_ipv4.c:51-52 | The mask `0x01FFFFFF` keeps the first three octets and bit 0 of the last |
| Words.WordInjective | xdp-progs/multi-runtime-cni-ipv4/bpf_tail_call_ipv4.c:61-70 | Comparing swapped words is comparing addresses |
| Words.LoadIsHtonl | xdp-progs/multi-runtime-cni-ipv4/translate_redirect_subpod_ipv4_tc.c:91-104 | A load of bytes in network order is the swapped number |
| Words.Be32BytesOf | pkg/network/IP4.go:108-119 | Splitting a number into bytes undoes putting them together |
| Checksum.FoldIsNorm | xdp-progs/multi-runtime-cni-ipv4/split_redirect_generic_ipv4_tc.c:73-77 | From any 32-bit accumulator at most two of the allowed rounds are taken, and the result is the end-around-carry representative modulo 65535 |
| Checksum.OnesSumIsNorm | xdp-progs/multi-runtime-cni-ipv4/split_redirect_generic_ipv4_tc.c:57-77 | Accumulating first and folding afterwards equals one's-complement addition word by word (section 1 of RFC 1071) |
| Checksum.RecheckValid | xdp-progs/multi-runtime-cni-ipv4/split_redirect_generic_ipv4_tc.c:50-83 | For every legal header inside the frame the sum including the stored check is all ones (section 3.1 of RFC 791), and the header stays in the frame |
| Checksum.RecheckAgree | xdp-progs/multi-runtime-cni-ipv4/split_redirect_lh_ipv4_tc.c:50-56 | The stored check does not depend on what the check field held before |
| Checksum.SumHeader | xdp-progs/multi-runtime-cni-ipv4/split_redirect_generic_ipv4_tc.c:57-65 | The summing loop in place: words past the end of data are skipped, and 32 bits are enough |
| Checksum.WordsPastEnd | xdp-progs/multi-runtime-cni-ipv4/split_redirect_generic_ipv4_tc.c:57-65 | Words that do not lie wholly in the frame add nothing to the sum |
| Checksum.FoldLoop | xdp-progs/multi-runtime-cni-ipv4/split_redirect_generic_ipv4_tc.c:73-77 | The folding loop computes the bounded fold |
| Checksum.Ipv4Check | xdp-progs/multi-runtime-cni-ipv4/split_redirect_generic_ipv4_tc.c:50-83 | Clears the check field of the buffer and returns the check of the cleared header, zero when an odd last byte lies past the end |
| Checksum.StoreCheck | xdp-progs/multi-runtime-cni-ipv4/translate_redirect_subpod_ipv4_tc.c:142 | The check is stored in network order and nothing else changes |
| Tc.RewriteAbsorbs | xdp-progs/multi-runtime-cni-ipv4/split_redirect_lh_ipv4_tc.c:110-115 | Rewriting a frame that was rewritten before gives what rewriting the original gives, checksum included |
| Tc.ClonesIndependent | xdp-progs/multi-runtime-cni-ipv4/split_redirect_generic_ipv4_tc.c:85-118 | The clones cut from one shared buffer, slot after slot, equal the rewrites of the untouched original, in order |
| Tc.RewriteAddresses | xdp-progs/multi-runtime-cni-ipv4/split_redirect_lh_ipv4_tc.c:110-115 | A rewrite changes only hardware addresses, IP addresses and checksum, and the fields read back as written |
| Tc.RewriteChecks | xdp-progs/multi-runtime-cni-ipv4/split_redirect_lh_ipv4_tc.c:110-117 | A rewritten frame has a legal header with a sum of all ones |
| Classifier.ClassifierMeaning | xdp-progs/multi-runtime-cni-ipv4/bpf_tail_call_ipv4.c:27-83 | The verdict in terms of addresses: which blocks the ends lie in and whether one is the reserved address of the subnet |
| Classifier.TailCallsExclusive | xdp-progs/multi-runtime-cni-ipv4/bpf_tail_call_ipv4.c:64-74 | A frame that one tail call can take is never offered to the other, whichever slots are filled |
| Classifier.NoVerdict | xdp-progs/multi-runtime-cni-ipv4/bpf_tail_call_ipv4.c:27-46 | What is not IPv4, and everything at an interface without a subnet, passes |
| SplitGeneric.CloneRedir | xdp-progs/multi-runtime-cni-ipv4/split_redirect_generic_ipv4_tc.c:85-118 | One slot: an active one rewrites the shared buffer and clones it, an inactive one leaves all as it is |
| SplitGeneric.Ipv4LhHandle | xdp-progs/multi-runtime-cni-ipv4/split_redirect_generic_ipv4_tc.c:120-196 | All eight slots in order leave the log of the shared-buffer fan-out, or nothing for other frames |
| SplitGeneric.TcGeneric2Split | xdp-progs/multi-runtime-cni-ipv4/split_redirect_generic_ipv4_tc.c:198-208 | Action, log and buffer together realise the fan-out of independent clones |
| SplitGeneric.OtherPasses | xdp-progs/multi-runtime-cni-ipv4/split_redirect_generic_ipv4_tc.c:120-140 | What is not IPv4 passes unchanged |
| SplitLocalhost.CloneRedirForward | xdp-progs/multi-runtime-cni-ipv4/split_redirect_lh_ipv4_tc.c:85-122 | One slot of a request: the clone comes from the address the slot holds |
| SplitLocalhost.CloneRedirBackward | xdp-progs/multi-runtime-cni-ipv4/split_redirect_lh_ipv4_tc.c:124-159 | One slot of a reply: the clone comes from the localhost address, if there is one |
| SplitLocalhost.Ipv4LhHandle | xdp-progs/multi-runtime-cni-ipv4/split_redirect_lh_ipv4_tc.c:161-230 | Request, reply or neither, told apart by the masked source, and slots 0 to 3 visited |
| SplitLocalhost.TcLh2Split | xdp-progs/multi-runtime-cni-ipv4/split_redirect_lh_ipv4_tc.c:232-242 | Action, log and buffer together realise the localhost fan-out |
| SplitLocalhost.OtherPasses | xdp-progs/multi-runtime-cni-ipv4/split_redirect_lh_ipv4_tc.c:161-182 | What is not IPv4 passes unchanged |
| Translate.Ipv4RedirectHandle | xdp-progs/multi-runtime-cni-ipv4/translate_redirect_subpod_ipv4_tc.c:74-146 | The returned number and the buffer in place stand for pass, drop or redirect as the egress rules say |
| Translate.ResetSeen | xdp-progs/multi-runtime-cni-ipv4/translate_redirect_subpod_ipv4_tc.c:121-130 | The program sees a reset in a frame of at least 54 bytes with protocol 6 at byte 23 and bit 2 set at byte 47. Behind a header without options that is one, if the datagram begins with a whole layer 4 header; in general program and datagram agree if and only if it does or the program sees no reset |
| Translate.EgressMeaning | xdp-progs/multi-runtime-cni-ipv4/translate_redirect_subpod_ipv4_tc.c:74-174 | The program on any frame and any table: what is not IPv4, stays in its block, or has neither its own nor the default route passes unchanged; of the rest, what looks like a reset is dropped, and the others go to the interface of the route, between its hardware addresses, from the base of their block, with an intact payload and a valid checksum |
| Translate.TcSubpodRedirect | xdp-progs/multi-runtime-cni-ipv4/translate_redirect_subpod_ipv4_tc.c:150-174 | Action, redirect target and buffer together realise the egress rules |
| AddressManager.IpRoundTrip | pkg/network/IP4.go:108-119 | `ip2int` and `int2ip` undo each other, also for the 16-byte form |
| AddressManager.FirstFitFrom | pkg/network/IP4.go:67-75 | The search stops, and every block below the address it returns is held |
| AddressManager.RequestLowest | pkg/network/IP4.go:67-82 | The lowest free block is granted; a request fails exactly when every block is held, and then changes nothing |
| AddressManager.RunSound | pkg/network/IP4.go:67-97 | Over every run of requests and releases only blocks of the subnet are held, and the subnet stays |
| AddressManager.RunSafe | pkg/network/IP4.go:28-37 | Over every run the held blocks are 8-aligned, pairwise disjoint, inside the subnet, and clear of base and gateway |
| AddressManager.PoolCapacity | pkg/network/IP4.go:67-82 | A subnet of `size` addresses yields at most `size / 8 - 1` blocks |
| AddressManager.FreeOnlyNamed | pkg/network/IP4.go:84-97 | A release takes exactly one block of the named pod if it holds any, and no other pod's |
| AddressManager.RequestThenFree | pkg/network/IP4.go:67-97 | A release after a request, by a pod that held nothing, restores the table, so that the next request is granted the same block |
| AddressManager.NamesShared | pkg/network/IP4.go:69 | Exactly when two different pods get the same name in the table |
| PodNetwork.KeysShared | pkg/network/NetNsManagement.go:3-5 | Exactly when two different pods get the same key |
| PodNetwork.KeysApart | pkg/network/NetNsManagement.go:3-5 | Pods of namespaces without a hyphen never do |
| AddressManager.IPv4AddressManager.InitAddressSpace | pkg/network/IP4.go:28-37 | Base, end and gateway of the subnet in 32-bit arithmetic, nothing held, and valid exactly when `Fits` holds |
| AddressManager.AlignedFits | pkg/network/IP4.go:28-37 | The search cannot wrap in any subnet of at least eight addresses whose base is a multiple of eight below the last block of the address space |
| AddressManager.IPv4AddressManager.InitStandaloneAddressSpace | pkg/network/IP4.go:56-65 | Base, base + 255 and gateway in 32-bit arithmetic, nothing held, and valid exactly when `Fits` holds |
| AddressManager.IPv4AddressManager.RequestPodIP | pkg/network/IP4.go:67-82 | The search loop ends in the state and the answer of first fit |
| AddressManager.IPv4AddressManager.FreePodIP | pkg/network/IP4.go:84-97 | The loop over the table releases as `Freed` says, whatever order it takes |
| AddressManager.IPv4AddressManager.GetCNIIfIP | pkg/network/IP4.go:99-101 | The gateway is the address after the base of the subnet |
| Ebpf.LruPutSize | xdp-progs/multi-runtime-cni-ipv4/translate_redirect_subpod_ipv4_tc.c:33-38 | A write to the LRU map adds at most one entry |
| Ebpf.Bpf.PutRedirect | pkg/network/MultiRuntimePodLocalNetworking.go:293 | A write to a redirect map: bounded by 64 entries, and evicting only when full |
| Ebpf.Bpf.PutNextSplitRouteObj | pkg/network/EBPF.go:697-726 | The route goes to the first inactive slot, and the search fails exactly when there is none |
| Ebpf.Bpf.PutNextLhSplitRouteObj | pkg/network/EBPF.go:570-598 | The same for a localhost map |
| Ebpf.Bpf.SetupFromLhTC | pkg/network/EBPF.go:221-255 | The port gets the localhost program with a new, empty map and the localhost address |
| PodInvariant.CreatedKeepsInv | pkg/network/MultiRuntimePodLocalNetworking.go:31-111 | Creating a pod keeps the invariant of tables, addresses and wiring |
| PodInvariant.GrownKeepsInv | pkg/network/MultiRuntimePodLocalNetworking.go:427-530 | Adding a workload keeps it, whatever order the iteration over the localhost maps takes |
| PodInvariant.StepKeepsInv | pkg/network/MultiRuntimePodLocalNetworking.go:31-530 | Every step keeps it |
| PodInvariant.RunInv | pkg/network/MultiRuntimePodLocalNetworking.go:20-530 | Every state of every run satisfies it |
| PodInvariant.ReachableStart | pkg/network/MultiRuntimePodLocalNetworking.go:20-29 | The state a new manager is in starts a run |
| PodInvariant.ReachableStep | pkg/network/MultiRuntimePodLocalNetworking.go:31-498 | A step, and so a successful call of either operation, leads from a reachable state to a reachable state |
| PodNetwork.MRPodLocalNetworkManager.InitContainerNetworking | pkg/network/MultiRuntimePodLocalNetworking.go:20-29 | A new manager satisfies the invariant and is in a state to start a run from |
| PodNetwork.MRPodLocalNetworkManager.InitPodNetwork | pkg/network/MultiRuntimePodLocalNetworking.go:31-111 | The whole method performs one creation step, or reports that no block is left and changes nothing, and keeps the invariant |
| PodNetwork.MRPodLocalNetworkManager.SetUpNetns | pkg/network/MultiRuntimePodLocalNetworking.go:44-79 | The record of the new pod, the localhost program at its first port, and a localhost map that holds the first workload alone |
| PodNetwork.MRPodLocalNetworkManager.SetUpRouting | pkg/network/MultiRuntimePodLocalNetworking.go:81-104 | The split map with the first workload, both directions of the redirect mesh, and the classifier at the bridge |
| PodNetwork.MRPodLocalNetworkManager.AttachLocalhostBpfPrograms | pkg/network/MultiRuntimePodLocalNetworking.go:195-234 | The new localhost map is recorded for the workload and attached to its port |
| PodNetwork.MRPodLocalNetworkManager.UpdateLocalhostBpfMaps | pkg/network/MultiRuntimePodLocalNetworking.go:500-530 | After the loop, in any order, every other map of the pod has one new slot for the newcomer and the newcomer's map holds everyone once, itself last |
| PodNetwork.MRPodLocalNetworkManager.InitFromSubpodRouting | pkg/network/MultiRuntimePodLocalNetworking.go:281-332 | The new pod's redirect map is sound, and complete as long as 64 entries suffice |
| PodNetwork.MRPodLocalNetworkManager.UpdateSubpodRouting | pkg/network/MultiRuntimePodLocalNetworking.go:334-357 | Every other pod's redirect map gets the one write for the new pod, with that pod's own MAC as source |
| PodNetwork.MRPodLocalNetworkManager.CreateVMTun | pkg/network/MultiRuntimePodLocalNetworking.go:427-498 | The whole method performs one growth step with the next address of the block, or reports that seven are taken or that there is no such pod and changes nothing, and keeps the invariant |
| PodNetwork.FillStep | pkg/network/MultiRuntimePodLocalNetworking.go:284-304 | One iteration of the loop over the pods keeps the redirect map sound, and complete while it has room |
| PodNetwork.MeshStep | pkg/network/MultiRuntimePodLocalNetworking.go:503-521 | One iteration of the loop over the localhost maps keeps both halves of the mesh |
| DataPlane.PodBase | pkg/network/ContainerNetworking.go:366-374 | The base of every pod is a block of the pool and the base of its own block |
| DataPlane.WorkloadWiring | pkg/network/MultiRuntimePodLocalNetworking.go:203-231 | The port of every workload runs the localhost program with that workload's own map, and its address lies in its pod's block |
| Delivery.RedirectMeaning | xdp-progs/multi-runtime-cni-ipv4/translate_redirect_subpod_ipv4_tc.c:91-145 | A bridge redirects only frames from its own block to another one, to the interface of the route for that block, translated as the route says |
| Delivery.AddressHiding | xdp-progs/multi-runtime-cni-ipv4/translate_redirect_subpod_ipv4_tc.c:140 | Whatever leaves a bridge carries the block base as source, never a workload's address, and an intact payload |
| Delivery.LandsOnSubnet | xdp-progs/multi-runtime-cni-ipv4/translate_redirect_subpod_ipv4_tc.c:104-106 | A redirect to a bridge lands on the one whose subnet is the block of the destination |
| Delivery.ArrivalEnds | xdp-progs/multi-runtime-cni-ipv4/bpf_tail_call_ipv4.c:61-74 | There the frame is not redirected again |
| Delivery.NoLoop | xdp-progs/multi-runtime-cni-ipv4/bpf_tail_call_ipv4.c:49-75 | From any reachable control state, any frame at any bridge meets the classifier at most twice |
| Delivery.CompleteSize | pkg/network/MultiRuntimePodLocalNetworking.go:281-357 | A complete redirect map needs as many entries as there are pods |
| Delivery.MeshIffRoom | pkg/network/MultiRuntimePodLocalNetworking.go:281-357 | In every reachable state the mesh, MACs and default route included, is complete if and only if there are at most 64 pods |
| Delivery.FanOutDelivers | xdp-progs/multi-runtime-cni-ipv4/split_redirect_generic_ipv4_tc.c:186-193 | The fan-out at a bridge yields exactly one clone per workload, in slot order, with that workload's addresses |
| Delivery.FirstHop | xdp-progs/multi-runtime-cni-ipv4/split_redirect_lh_ipv4_tc.c:204-229 | A frame for another pod passes its own port and, unless it is for the reserved address of its subnet, meets the egress program |
| Delivery.KnownRoute | xdp-progs/multi-runtime-cni-ipv4/translate_redirect_subpod_ipv4_tc.c:102-145 | With a route, it goes translated to the bridge of its destination, or is dropped as a reset |
| Delivery.UnknownRoute | xdp-progs/multi-runtime-cni-ipv4/translate_redirect_subpod_ipv4_tc.c:108-119 | Without one it reaches no bridge of the node |
| Delivery.SecondHop | xdp-progs/multi-runtime-cni-ipv4/split_redirect_generic_ipv4_tc.c:120-196 | What happens to the translated frame at the bridge of its destination |
| Delivery.EndToEnd | xdp-progs/multi-runtime-cni-ipv4/bpf_tail_call_ipv4.c:49-75 | In every reachable state of any subnet, one clone per workload of the destination if and only if the sender has a route, the program sees no reset and no reserved address is involved |
| Localhost.TrafficPartition | xdp-progs/multi-runtime-cni-ipv4/split_redirect_lh_ipv4_tc.c:186-229 | On a workload's frame at its own port and bridge one program acts or none, decided by the destination alone, and ingress fan-out never does |
| Localhost.LocalhostMesh | pkg/network/MultiRuntimePodLocalNetworking.go:500-530 | In every reachable state each localhost map's active slots are a prefix in bijection with all workloads of the pod, each entry with its address, MAC, and the base as source |
| Localhost.SlotsCorrespond | pkg/network/ContainerNetworking.go:366-374 | In every reachable state a pod has one to seven workloads at base + 1 and up, split slot `i` is active exactly for workload `i`, and every address masks back to the base |
| Localhost.FanOutReaches | xdp-progs/multi-runtime-cni-ipv4/split_redirect_lh_ipv4_tc.c:204-225 | The localhost fan-out reaches exactly the workloads in the visited slots, and so everyone if and only if there are at most four |
| Localhost.LocalhostReach | pkg/network/MultiRuntimePodLocalNetworking.go:503-528 | In every reachable state every workload of a pod reaches four, or all if there are fewer; the first five reach exactly the first four, and a later one only workloads that came before it |
| Localhost.RequestReachesAll | xdp-progs/multi-runtime-cni-ipv4/split_redirect_lh_ipv4_tc.c:186-213 | Exactly when a request to the gateway reaches every workload as coming from the pod's base |
| Localhost.FarRequest | xdp-progs/multi-runtime-cni-ipv4/split_redirect_lh_ipv4_tc.c:186-229 | In every reachable state no request from outside the /24 of the gateway is recognised |
| Localhost.ReplyReachesAll | xdp-progs/multi-runtime-cni-ipv4/split_redirect_lh_ipv4_tc.c:214-226 | Exactly when a reply to the pod's base reaches every workload as coming from the gateway |
| Localhost.RoundTrip | xdp-progs/multi-runtime-cni-ipv4/split_redirect_lh_ipv4_tc.c:85-230 | In pods of any size in any subnet: a workload sees the pod's base asking if and only if the asker masks to the gateway and the workload sits in a visited slot of the asker's map; the asker gets the answer, as the exact reverse of the request, if and only if the answerer does not mask to the base and the asker sits in a visited slot of its map |
| Standalone.PodsFitPool | pkg/network/IP4.go:56-82 | A standalone node has at most 31 pods |
| Standalone.StandaloneMesh | pkg/network/MultiRuntimePodLocalNetworking.go:281-357 | In every reachable state of a standalone node the mesh is complete and no redirect map is more than half full |
| Standalone.StandaloneDelivery | xdp-progs/multi-runtime-cni-ipv4/split_redirect_generic_ipv4_tc.c:85-196 | In every reachable state of a standalone node a frame to any address of another pod's block is delivered, one clone per workload, payload untouched, if and only if it is not taken for a TCP reset, which means that it is none if the datagram begins with a whole layer 4 header and has no options |
| Standalone.StandaloneLocalhost | xdp-progs/multi-runtime-cni-ipv4/split_redirect_lh_ipv4_tc.c:186-229 | In every reachable state of a standalone node requests reach everyone if and only if the sender is odd and there are at most four workloads, replies if and only if there are at most four |
| Outbound.RedirectAddresses | pkg/network/MultiRuntimePodLocalNetworking.go:281-356 | In every reachable state, whatever a pod's bridge redirects carries the hardware address of that bridge as source, and as destination that of the interface it goes to, which is the public one or the bridge of another pod |
| Outbound.OffNode | xdp-progs/multi-runtime-cni-ipv4/translate_redirect_subpod_ipv4_tc.c:108-145 | In every reachable state of any subnet: a frame to no local pod that its own pod has a route to is dropped if it looks like a reset and otherwise leaves for the public interface from the base of its pod, translated and intact, unless a reserved address catches it or the default route is lost; with at most 64 pods there always is a default route |
| Outbound.StandaloneOffNode | xdp-progs/multi-runtime-cni-ipv4/translate_redirect_subpod_ipv4_tc.c:108-145 | On a standalone node every frame to an address outside the subnet leaves for the public interface, or is dropped if and only if it looks like a reset |
| Xdp.XdpMd.AdjustHead | xdp-progs/xdp-warrens-cni/xdp_tun_to_remote.c:133-139 | The head moves if it stays in the buffer and leaves an Ethernet header, and the bytes stay |
| Tunnel.UdpCsum | xdp-progs/xdp-warrens-cni/xdp_tun_to_remote.c:31-64 | The accumulating and the folding loop compute the complement of the sum over pseudo-header and words, zero at the end of data, 32-bit wrap included |
| Tunnel.XdpProgTtr | xdp-progs/xdp-warrens-cni/xdp_tun_to_remote.c:66-192 | The program in place has the outcome and leaves the frame of the encapsulation function, also when the head could not be moved |
| Tunnel.HeaderFields | xdp-progs/xdp-warrens-cni/xdp_tun_to_remote.c:148-185 | Which field of an emitted frame holds what, and that everything behind the headers is the original |
| TunnelOutcome.TtrMeaning | xdp-progs/xdp-warrens-cni/xdp_tun_to_remote.c:66-192 | The sender on any buffer, in the bytes of the frame: it sends to the interface of the tunnel if and only if the frame is IPv6, its destination has a tunnel and the sizes pass, and it drops everything else |
| Tunnel.XdpProgRtt | xdp-progs/xdp-warrens-cni/xdp_remote_to_tun.c:28-129 | The program in place has the outcome and leaves the frame of the decapsulation function |
| TunnelOutcome.RttMeaning | xdp-progs/xdp-warrens-cni/xdp_remote_to_tun.c:28-129 | The receiver on any buffer, in the bytes of the frame: what is no UDP datagram over IPv6 to port 31337 goes to the stack untouched, and a datagram is unpacked and handed on by its inner destination, or handed on unopened if its head cannot be moved |
| Tunnel.TunnelRoundTrip | xdp-progs/xdp-warrens-cni/xdp_remote_to_tun.c:67-127 | What the sender emits the receiver turns back into the original with only the two MACs replaced by its own entry, or hands up the untouched original without one; other ports are not unpacked |
| Tunnel.SubnetKey | xdp-progs/xdp-warrens-cni/xdp_tun_to_remote.c:92-114 | Two destinations share a tunnel entry if and only if their first 112 bits agree |
| Tunnel.EncapsulatesIffRoom | xdp-progs/xdp-warrens-cni/xdp_tun_to_remote.c:133-177 | A frame of the length it declares is emitted if and only if there is headroom or its length exceeds the signed 16-bit range |
| Tunnel.OuterLengths | xdp-progs/xdp-warrens-cni/xdp_tun_to_remote.c:129-183 | Both outer lengths equal the bytes behind the outer IPv6 header if and only if the inner length field is right and the result fits 16 bits |
| TunnelChecksum.UdpChecksum | xdp-progs/xdp-warrens-cni/xdp_tun_to_remote.c:164-185 | For every frame emitted, the sum of section 8.1 of RFC 8200 verifies if and only if a condition on the buffer before the call holds: it holds the announced datagram, what the loop leaves out equals, modulo 65535, what the check field held less the lost carry, and the program's own sum does not come to the checksum zero, which stands for none |
| TunnelChecksum.StoredCheck | xdp-progs/xdp-warrens-cni/xdp_tun_to_remote.c:31-185 | The checksum field of any emitted frame, also one whose length has wrapped, from the buffer before the call and the tunnel entry alone: zero if the words to visit go past the end of data, and otherwise the complement of the folded sum, 65536 less for a length beyond the signed 16-bit range |
| TunnelChecksum.StoredZero | xdp-progs/xdp-warrens-cni/xdp_tun_to_remote.c:57-63 | That checksum is zero exactly when the sum is a multiple of 65535, the lost carry set off |
| TunnelChecksum.UdpChecksumEven | xdp-progs/xdp-warrens-cni/xdp_tun_to_remote.c:47-63 | For an even length up to 3072 it verifies if and only if the headroom held one of the two zeros there and the program does not store zero |
| Vlan.VlanTagPush | xdp-progs/common/rewrite_helpers.h:69-108 | In place: the frame with a tag of type 0x8100, or no change and -1 without four bytes of headroom |
| Vlan.VlanTagPop | xdp-progs/common/rewrite_helpers.h:22-64 | In place: the frame without its outer tag and the tag as the result, or no change and -1 if there is none |
| Vlan.IsTaggedMeaning | xdp-progs/common/parsing_helpers.h:68-72 | There is a tag to pop if and only if the type is 81 00 or 88 A8 and the tag is in the frame |
| Vlan.TaggedMeaning | xdp-progs/common/rewrite_helpers.h:87-106 | A push writes the bytes 81 00 and the tag behind the hardware addresses and moves the rest on |
| Vlan.PopUndoesPush | xdp-progs/common/rewrite_helpers.h:22-108 | Pop after push gives back the frame byte for byte and the tag |
| Vlan.PushUndoesPop | xdp-progs/common/rewrite_helpers.h:103-106 | Push after pop gives back the frame if and only if the tag was of type 0x8100, and otherwise changes only the type |
| Vlan.ParseAfterPush | xdp-progs/common/parsing_helpers.h:79-122 | Parsing after a push finds the same inner type four bytes further if and only if the frame had at most one tag |
| Parsing.ParseEthhdrVlan | xdp-progs/common/parsing_helpers.h:79-122 | The loop skips at most two tags and collects their identifiers, with cursor and result as the specification says |
| Parsing.EthVlanMeaning | xdp-progs/common/parsing_helpers.h:68-122 | The Ethernet step in the bytes of the packet: it passes the tags of type 81 00 or 88 A8, at most two, and returns the two bytes behind them |
| Parsing.ParseIphdr | xdp-progs/common/parsing_helpers.h:151-174 | Result, header and cursor of the IPv4 parser, all three failures included |
| Parsing.ParseUdphdr | xdp-progs/common/parsing_helpers.h:224-242 | Result, header and cursor of the UDP parser, the moved cursor of a late failure included |
| Parsing.ParseTcphdr | xdp-progs/common/parsing_helpers.h:247-270 | Result, header and cursor of the TCP parser |
| Parsing.SuccessIsSafe | xdp-progs/common/parsing_helpers.h:79-270 | A successful step returns a whole header between old and new cursor, within the data, and the content type or length that the header states |
| Parsing.SucceedsIff | xdp-progs/common/parsing_helpers.h:79-270 | A step succeeds if and only if the header declares a legal length and lies wholly in the data, and a UDP length counts the header |
| Parsing.FailureLeavesCursor | xdp-progs/common/parsing_helpers.h:79-270 | A failed step leaves the cursor and sets no header if and only if it is not the UDP parser's rejection of a length below eight |
| Parsing.CursorMovedOnFailure | xdp-progs/common/parsing_helpers.h:234-239 | Eight zero bytes on which a failed step moves the cursor |
| Parsing.ChainInBounds | xdp-progs/common/parsing_helpers.h:79-270 | In any chain of steps the cursor never goes back and never leaves the data, however the steps end |
| Parsing.ChainSafe | xdp-progs/common/parsing_helpers.h:79-270 | In any chain of successful steps the headers lie one behind the other in the data, each at least eight bytes |
| Parsing.SkipVlansMeaning | xdp-progs/common/parsing_helpers.h:104-121 | The loop passes every tag there is up to its bound and returns the type behind the last |
| Parsing.TagDepthMeaning | xdp-progs/common/parsing_helpers.h:104-121 | There are at least `k` tags if and only if `k` pairs of bytes 81 00 or 88 A8 follow each other four bytes apart, with a whole tag behind each |
| Parsing.CollectedMeaning | xdp-progs/common/parsing_helpers.h:112-118 | The identifiers collected are those of the tags passed, in order, and the rest of the array is not written |
| Parsing.VidMeaning | xdp-progs/common/parsing_helpers.h:62 | The identifier mask keeps the low twelve bits |
| Instances.SharedName | pkg/network/IP4.go:69 | Two pods with one name |
| Instances.SharedKey | pkg/network/NetNsManagement.go:3-5 | Two pods with one key |
| Instances.TagTypeLost | xdp-progs/common/rewrite_helpers.h:103-106 | An 802.1AD frame that does not come back |
| Instances.ThirdTag | xdp-progs/common/parsing_helpers.h:104-118 | A frame with two tags on which a push hides the inner type |
| Instances.OptionTakenForReset | xdp-progs/multi-runtime-cni-ipv4/translate_redirect_subpod_ipv4_tc.c:122-129 | A header with options that is taken for a reset and is none |
| Instances.FragmentTakenForReset | xdp-progs/multi-runtime-cni-ipv4/translate_redirect_subpod_ipv4_tc.c:122-129 | A later fragment that is taken for a reset and is none |
| Instances.PaddingTakenForReset | xdp-progs/multi-runtime-cni-ipv4/translate_redirect_subpod_ipv4_tc.c:122-129 | A datagram without payload whose padding is taken for a reset |
| Instances.NoHeadroom | xdp-progs/xdp-warrens-cni/xdp_tun_to_remote.c:133-177 | A well-formed frame that is not encapsulated |
| Instances.StaleHeadroom | xdp-progs/xdp-warrens-cni/xdp_tun_to_remote.c:181-185 | Whatever a headroom holds other than zero where the checksum goes, a datagram of even length up to 3072 is sent with a checksum that does not verify |
| Instances.OddLength | xdp-progs/xdp-warrens-cni/xdp_tun_to_remote.c:47-55 | A frame of odd length, in a clean buffer, that is sent with a checksum that does not verify |
| Instances.PastTheLoop | xdp-progs/xdp-warrens-cni/xdp_tun_to_remote.c:47-55 | The same for a datagram of 3074 bytes |
| Instances.PastFifteenBits | xdp-progs/xdp-warrens-cni/xdp_tun_to_remote.c:129-183 | The same for a datagram of 32768 bytes, whose length is added as a negative number |
| Instances.ZeroStored | xdp-progs/xdp-warrens-cni/xdp_tun_to_remote.c:57-63 | A frame of short even length, in a clean buffer, that is sent with checksum zero |
| Instances.NotUnpacked | xdp-progs/xdp-warrens-cni/xdp_remote_to_tun.c:84-127 | A tunnel datagram of 62 bytes that is sent on unopened |
| Instances.MeshBroken | pkg/network/MultiRuntimePodLocalNetworking.go:281-357 | A run of the manager to 65 pods, after which the mesh is incomplete |
| Instances.ReservedBlock | pkg/network/IP4.go:67-82 | A run of the manager to a pod on a block that starts a /24 other than that of the gateway |
| Instances.ReservedAddress | xdp-progs/multi-runtime-cni-ipv4/bpf_tail_call_ipv4.c:52-61 | In any such state, a frame to that pod that is not delivered |
| Instances.EvenSender | xdp-progs/multi-runtime-cni-ipv4/split_redirect_lh_ipv4_tc.c:188-204 | In any pod of at least two workloads, a request that does not reach everyone |
| Instances.FarSender | xdp-progs/multi-runtime-cni-ipv4/split_redirect_lh_ipv4_tc.c:186-204 | In any pod outside the /24 of the gateway, a request from an odd address that reaches nobody |
| Instances.FiveWorkloads | xdp-progs/multi-runtime-cni-ipv4/split_redirect_lh_ipv4_tc.c:205-224 | In any pod of five, a request and a reply that do not reach everyone |
| Instances.LocalhostLimits | pkg/network/MultiRuntimePodLocalNetworking.go:427-498 | Runs of the manager to both states |

## Left out

- PodNetwork.MRPodLocalNetworkManager.InitPodNetwork: takes a pod that does not exist yet and kernel calls that succeed, because the code gives no guarantee for a pod created twice or half created; where the code goes on after an exhausted pool and fails on the empty address, the model reports failure.
- PodNetwork.MRPodLocalNetworkManager.CreateVMTun: takes kernel calls that succeed; where the code fails on a pod that does not exist, the model reports failure.
- AddressManager.IPv4AddressManager.RequestPodIP: says nothing for a base in the last eight addresses of the 32-bit space or an end in the last seven, where the search could wrap around; `AlignedFits` shows which subnets cannot be of that kind.
- AddressManager.IPv4AddressManager.InitAddressSpace: takes a mask with at least one leading one; for an empty mask the code converts 2^32 to 32 bits, which Go leaves to the platform.
- PodNetwork.MRPodLocalNetworkManager.InitContainerNetworking: takes a manager whose subnet base is a multiple of eight; a configured prefix need not have one (pkg/network/IP4.go:143-146), and then the masks of the programs do not yield the bases of the blocks.
- Delivery.EndToEnd: says nothing about the checksums of TCP and UDP, which the programs do not update.
- Ebpf.Bpf.PutRedirect: which entry a full LRU map evicts is left open.
- Kernel effects: netlink, namespaces, program loading, retries, logging and random names and MACs are parameters; interfaces are fresh indices, and a successful tail call does not return.
- Addresses are the keys of the pod records, where the code uses their dotted form.
- Which of two pod names that join to the same namespace name is meant: the joined name is the pod's identity.
- `MultiRuntimeNetworking.go`: the same mesh and split map without the localhost part, so that nothing said here depends on it.
- The IPv6 programs, tables and allocator: they are unfinished and do not share tables with the IPv4 ones.
- `StopPodNetwork` and `TeardownContainerNetworking`, which change no table and free no address; nothing in the repository calls `FreePodIP`.
- The helpers that swap addresses, the ICMP and IPv6 parsers, and the `translate_redirect_lh` programs: no program or table of the model uses them, and the set-up of the last is never called.
- Providers, storage, HTTP, flags and tracing, which only call the operations above.
