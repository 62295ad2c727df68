# GuestKit agent and VM manager: a verified model

GuestKit is an in-guest agent with a JSON-RPC interface, an eBPF policy engine
behind leases, and a small QEMU manager. This project models the parts of it
whose correctness spans several calls, several processes or several files, and
proves what they keep. To verify it:

    dafny verify dfyconfig.toml

The model has three layers. Value-level functions say what one step does. Runs
are sequences of steps, and the main theorems are about every run, every
interleaving and every point at which the program may stop. Classes and methods
do the steps the way the source does them, in place and in loops, and are
proved equal to the value-level steps, so the theorems about runs apply to them.

| files | what they model |
|---|---|
| `ReplayWindow`, `Rpc`, `RpcTables`, `Gate`, `GateTheorems`, `GateRetries`, `GateService`, `GateEntry` | the request gate: policy, expiry, nonces, idempotency keys; and which frames go through it |
| `Lease`, `LeaseTerms`, `LeaseAgreement`, `LeaseOrphans`, `LeaseTable`, `Subtree` | eBPF policies held in the kernel under a lease, and the agent's own view of them |
| `Cidr`, `NetPolicy` | rules from CIDR notation to kernel words, their installation, and the packet verdict |
| `Qmp` | the QMP client |
| `Shell`, `VmDefinition`, `QemuArgs`, `OptionLists`, `QemuArgsTheorems`, `QemuIds`, `QemuReads`, `QemuPlan` | VM definitions, readiness, the QEMU argument list and its printed form |
| `Paths`, `VmLifecycle`, `VmOneLive`, `VmOutcomes`, `VmFrame`, `VmInterleaving`, `VmInputs`, `VmManager` | definition, pid and socket files, and the processes behind them |
| `Channels`, `ChannelTerms`, `ChannelRegistry` | event push over the agent's channels |
| `FileTree`, `FileOps`, `FileWalks`, `FileNames`, `FileLanding`, `FileOpsTheorems`, `FileOpsInputs`, `FileRaces`, `FileKept`, `FileStore` | path authorisation and file replacement over a tree with symbolic links |
| `NetIntel`, `Integrity`, `IntegrityReports`, `Inject` | the socket summary, the tamper check, and plan operations |
| `Text`, `Sequences`, `Wrappers` | strings, numbers as text, sequences; `Option` and `Result` |

What is outside the program is a parameter: clocks, the policy file, the glob
matcher, the outcome of a dispatched method, QMP's reports, whether a kernel
write or a launch works, the file tree at the start.

## Where the code does not do what it is said to do

Each entry names the input at which a promise fails and the theorem that says exactly when it holds.

- A nonce is documented as single-use (`docs/features/guestkit-agent-protocol-1.3.md:57`). It is
  single-use within a window (`ReplayWindow.ReusedNonce`; exactly: `ReplayWindow.ReuseExactly`,
  `GateRetries.NoncePassesExactly`).
- A retried mutating request is documented to return the cached response
  (`docs/features/guestkit-agent-protocol-1.3.md:58`). A retry that repeats its nonce gets a replay
  error instead (`GateRetries.RejectedRetry`; exactly: `GateRetries.RetryAnsweredExactly`), and two
  overlapping requests under one key can both run (`GateTheorems.OverlapRunsTwice`).
- The handler says policy authorisation applies to everything except capability negotiation
  (`src/agent/handler.rs:86-88`). A QGA command such as `guest-exec` runs under a policy that denies
  everything (`GateEntry.DenyAllRunsExec`; exactly: `GateEntry.UnauthorizedExactly`).
- Replay protection and idempotency are said to apply to mutating methods
  (`src/agent/handler.rs:86-88`). A request inside a `guestkit-rpc` envelope loses its timestamp, nonce
  and key on the way (`GateEntry.PassthroughLeavesNoTrace`; exactly when it is admitted all the same:
  `GateEntry.PassthroughAdmittedExactly`).
- A cached response is selected by its key alone: a request for one method can be answered with the
  result of another (`GateRetries.AnsweredForAnother`; which response it is: `GateTheorems.LookupHits`).
- The loader says a program never sees a policy pointing at missing rule slots
  (`crates/guestkit-ebpf-runtime/src/loader.rs:203-207`). A replacement with fewer rules shows a gap
  (`NetPolicy.FewerRulesShowGap`; exactly: `NetPolicy.SlotsNeverMissingExactly`). And a packet that the
  old rules and the new rules both allow can be dropped in between (`NetPolicy.SwapDrops`; exactly:
  `NetPolicy.ReplacementPassesExactly`).
- The agent's entries do not always describe the kernel: two targets over one id, or a write that
  fails half-way (`LeaseAgreement.OverlapBreaksAgreement`, `LeaseAgreement.HalfWrittenBreaksAgreement`;
  exactly, for every call and every sweep: `LeaseAgreement.ApplyAgreesExactly`,
  `LeaseAgreement.SweepAgreesExactly`).
- Turning a target off does not always end its enforcement: after a first apply that failed half-way
  there is no entry to turn off (`LeaseOrphans.OffLeavesHalfApplied`; exactly when a first apply leaves
  such ids: `LeaseOrphans.FirstApplyOrphansExactly`; they then last until their deadline:
  `LeaseOrphans.OrphanStays`).
- Two QEMU processes can run for one VM: a start whose check gets no answer over an existing socket
  (`VmInputs.SecondQemu`; exactly, for a start that nothing interrupts: `VmOneLive.StartDoublesExactly`);
  two starts that overlap (`VmInputs.OverlappingStarts`); a state query that saw a dead process and
  sweeps up only after the next one was launched (`VmInputs.LateSweep`). Exactly, for every
  interleaving: `VmInterleaving.OneLiveExactly`.
- Destroying a VM whose pid file holds -1 ends every VM's process (`VmFrame.StrayPidEndsAll`;
  exactly when other VMs are spared: `VmFrame.DestroySparesOthersExactly`).
- Notifications are documented never to go to the QGA port
  (`docs/features/guestkit-agent-protocol-1.3.md:24`). They do when a virtio channel is configured with
  another text that opens that port: the Windows default, and the empty path
  (`Channels.WindowsDefaultPushes`, `Channels.EmptyPathPushes`; exactly, for every interleaving:
  `Channels.QgaQuietExactly`).
- A comma in a path inside an option string changes what QEMU reads (`QemuPlan.CommaInPath`;
  exactly: `QemuArgsTheorems.OptionsReadBack`).
- A link inside an allowed path is said not to reach outside (`src/agent/file_ops.rs:5-7`). A link
  under a side file's name does, and so does an allowed prefix that is a file, whose side files are
  its siblings (`FileOpsInputs.EscapingInputs`; exactly: `FileOpsTheorems.AuthorizedWriteConfined`).
- A replacement is not always all or nothing: a backup name that links to the target empties it
  (`FileOpsInputs.TornInput`; exactly: `FileOpsTheorems.AllOrNothingExactly`), and two concurrent
  writes to files with the same stem can swap their bytes (`FileRaces.SameStemMixes`; exactly:
  `FileRaces.OwnBytesExactly`). A write that has finished can lose its bytes to the backup of another
  (`FileKept.BackupNameLosesBytes`; exactly: `FileKept.KeptExactly`).
- Tampering with the baseline is said to be detected (`src/agent/integrity.rs:10-11`). It is exactly
  when the altered baseline is not sealed again, which needs no secret (`Integrity.LoadsExactly`).
- Two agent installs prepared in one process stage their unit files under one name, so that both plans
  install the second unit (`Inject.SecondUnitForBoth`; exactly: `Inject.OwnUnitExactly`).

## Model

| member | source | states |
|---|---|---|
| GateService.ReplayCache.NonceFresh | src/agent/state.rs:136-149 | the queue and set together become the window after admitting the nonce; the answer is whether it was absent |
| ReplayWindow.QueueDistinct | src/agent/state.rs:136-149 | after any calls, with any caps, the queue holds no nonce twice |
| ReplayWindow.QueueIsTailOfHistory | src/agent/state.rs:136-149 | after any calls the queue is a tail of the accepted nonces in order |
| ReplayWindow.QueueWithinLastCap | src/agent/state.rs:136-149 | the queue is never longer than the last accepted call's cap, at least one |
| ReplayWindow.FixedCapWindow | src/agent/state.rs:136-149 | with a fixed cap the queue is exactly the last max(cap, 1) accepted nonces |
| ReplayWindow.StillQueued | src/agent/state.rs:136-149 | while fewer than the bound have been accepted since a nonce, it and they are the end of the queue |
| ReplayWindow.ReuseNeedsEviction | src/agent/state.rs:136-149 | a nonce is accepted again only after that many pairwise distinct other nonces |
| ReplayWindow.WidthExactly | src/agent/state.rs:136-149 | the window is as wide as asked for, but never empty |
| ReplayWindow.ReuseExactly | src/agent/state.rs:136-149 | with a fixed cap, a repeated nonce is accepted if and only if the window was filled in between |
| ReplayWindow.QueuedExactly | src/agent/state.rs:136-149 | with a fixed cap, a nonce is still known if and only if fewer than a window's worth were accepted since some acceptance of it |
| ReplayWindow.ReusedNonce | src/agent/state.rs:136-149 | with a window of one, the calls a, b, a are all accepted |
| GateService.ReplayCache.IdempotentGet | src/agent/state.rs:151-157 | drops every entry of ten minutes or more, then answers from what is left |
| GateService.ReplayCache.IdempotentStore | src/agent/state.rs:159-164 | replaces the entry of one key and no other |
| GateService.RequestHandler.EnforceReplay | src/agent/handler.rs:158-178 | nonce before key; returns the rejection, the cached answer under the new id, or nothing, with the caches as the two steps leave them |
| GateService.RequestHandler.HandleOn | src/agent/handler.rs:76-121 | the response and both caches are those of the four-step machine served without interleaving |
| GateService.ServeAnswers | src/agent/handler.rs:76-121 | a served request ends with a reply and moves no other request |
| GateService.ServeExtendsRun | src/agent/handler.rs:76-121 | serving one request extends a run by its own steps only, so all run theorems apply to it |
| Gate.DispatchHistory | src/agent/handler.rs:101-178 | in every interleaving a mutating dispatch comes after its admission, then its nonce check, then its key lookup, each passed |
| RpcTables.MutatingExactly | crates/guestkit-agent-protocol/src/rpc.rs:267-305 | a method mutates if and only if it is not among those that only read |
| RpcTables.NegotiationExactly | src/agent/handler.rs:90-93 | negotiation is three methods, which only read and are behind no switch |
| RpcTables.SwitchExactly | src/agent/policy.rs:332-409 | which methods are behind each switch, and which behind none |
| RpcTables.TurnedOff | src/agent/policy.rs:332-409 | turning a switch off refuses exactly the methods behind it |
| GateTheorems.DecidesExactly | src/agent/handler.rs:76-160 | exactly when a request is refused on arrival, and with which error, on its fields, the policy and the clock: ill-formed, denied, a bad timestamp, later than the policy's or its own time to live, or none where one is required |
| GateTheorems.NotJsonRefused | src/agent/handler.rs:77-80 | a frame that is no request gets a parse error without an id |
| GateTheorems.WrappedTtlExpires | src/agent/handler.rs:140-141 | times to live beyond the signed range wrap around: such a request is expired at its own timestamp |
| GateTheorems.DispatchedWasAuthorized | src/agent/policy.rs:332-409 | whatever the gate dispatches, reading or mutating, passed deny, allow and switch of the policy at its arrival, unless it is negotiation |
| GateEntry.HistoriesAreRuns | src/agent/handler.rs:50-71 | whatever frames arrive, what the gate does is one of its runs, so every theorem about runs holds |
| GateEntry.UnauthorizedExactly | src/agent/handler.rs:50-61 | over every history of frames, what runs was not let in by the policy at its arrival if and only if its frame is an `execute` command other than `guestkit-rpc` |
| GateEntry.DenyAllLeaves | src/agent/handler.rs:86-101 | under a policy that denies every name only negotiation and such commands run |
| GateEntry.DenyAllRunsExec | src/agent/qga.rs:48-105 | under such a policy `guest-exec` runs |
| GateEntry.EnvelopeCarries | src/agent/qga.rs:119-131 | what of a request survives an envelope: method, parameters and id with their defaults; no timestamp, nonce or key |
| GateEntry.PassthroughAdmittedExactly | src/agent/qga.rs:119-131 | a mutating method in an envelope passes the first checks if and only if it has a name, is authorised and no expiry is required |
| GateEntry.PassthroughLeavesNoTrace | src/agent/qga.rs:119-131 | over every history, no step of a request that came in an envelope changes nonces or stored responses |
| GateTheorems.AnsweredWithOutcome | src/agent/handler.rs:107-120 | a dispatched request is answered under its own id with the value or the error, and exactly a mutating success under a key is stored |
| GateTheorems.OrderIsQueue | src/agent/handler.rs:162-170 | in every interleaving the nonce queue is the window of the nonce steps so far |
| GateTheorems.NonceReuse | src/agent/handler.rs:162-170 | in every interleaving a nonce is admitted twice only after that many pairwise distinct other nonces |
| GateTheorems.RetryWithSameNonce | src/agent/handler.rs:162-177 | under any cache sizes, a retry that repeats a nonce still in the window is answered with a replay error and leaves the idempotency cache alone |
| GateRetries.NoncePassesExactly | src/agent/handler.rs:162-170 | in every interleaving the nonce check lets a request pass if and only if it has no nonce or a window's worth of others was admitted since each admission of it; otherwise it answers with a replay error |
| GateRetries.RetryAnsweredExactly | src/agent/handler.rs:101-178 | in every interleaving a completed mutating request with a key was answered from the cache if and only if its nonce passed, so that it came to its lookup, and a success under the key was fresh there |
| GateRetries.RejectedRetry | src/agent/handler.rs:162-177 | every admissible request with nonce and key can succeed and be refused when repeated at once, its success still in the cache |
| GateRetries.AnsweredForAnother | src/agent/handler.rs:171-177 | after any keyed success, another admissible request with the key and no nonce is answered with its result, whatever its method |
| GateTheorems.CacheInvariant | src/agent/state.rs:151-164 | for every key the cache holds its last recorded success, unless a lookup has already found it ten minutes old |
| GateTheorems.LookupHits | src/agent/handler.rs:171-177 | a lookup answers from the cache if and only if some success under the key is younger than ten minutes; the answer is the last one, with the new request's id |
| GateTheorems.SuccessesUnderOneKey | src/agent/handler.rs:107-118 | of two successes under one key the later looked up before the earlier was recorded, or ten minutes after |
| GateTheorems.SerialIdempotency | src/agent/handler.rs:107-118 | without overlap the lookup of the second success is at least ten minutes after the first was recorded |
| GateTheorems.FinishesOnce | src/agent/handler.rs:101-120 | no request is dispatched twice |
| GateTheorems.OverlapRunsTwice | src/agent/handler.rs:171-177 | every admissible request with a key and no nonce can succeed twice at one instant when two copies overlap |
| GateTheorems.ReplayedDispatch | src/agent/handler.rs:101-178 | a dispatched request with timestamp and used nonce is within the policy's longest time to live and its own, its nonce was pushed out by the window's worth of distinct others, and no fresh success exists for its key |
| Lease.ParseMode | src/agent/guest_ebpf.rs:111-124 | exactly which texts, trimmed and lower-cased, mean off, audit and enforce; enforcing carries the given lease, between 1 and 3600 seconds |
| Text.TrimExactly | src/agent/guest_ebpf.rs:112 | trimming takes away white space at both ends and nothing else |
| Text.LowerExactly | src/agent/guest_ebpf.rs:112 | lower-casing changes the 26 capital letters and nothing else |
| Lease.LeaseSafety | src/agent/guest_ebpf.rs:220-240 | in every run, with every failing write and wherever the agent stops, the kernel denies for an id only if some call asked to enforce on it less than an hour before |
| Lease.SilenceEndsEnforcement | src/agent/guest_ebpf.rs:305-310 | an hour after the last call nothing is denied, for tracked and untracked ids |
| Lease.RunJustified | src/agent/guest_ebpf.rs:341-381 | after every prefix of a run each enforcing policy in the kernel comes from a grant and ends with it |
| LeaseTerms.EnforcedExactly | src/agent/guest_ebpf.rs:305-310 | after an enforcing call that succeeds each id of its target is denied up to the call's clock plus the lease and no longer, under the rules and other flags asked for |
| LeaseTerms.AuditNeverDenies | src/agent/guest_ebpf.rs:356-380 | after an auditing call that succeeds nothing is denied on the target's ids, whatever was before |
| LeaseTerms.OffEnds | src/agent/guest_ebpf.rs:357-362 | after a target is turned off its entry is gone, and the policies of its ids unless they silently stay |
| LeaseTerms.EntryRecords | src/agent/guest_ebpf.rs:372-380 | the entry records the cgroup, its ids, that it enforces, and the clock at which the lease ends |
| LeaseTerms.AuditRecords | src/agent/guest_ebpf.rs:372-380 | an auditing call records an entry without enforcement and deadline |
| LeaseTerms.FailureRecordsNothing | src/agent/guest_ebpf.rs:356-380 | a call that fails adds and alters no entry |
| LeaseTerms.CompletedExactly | crates/guestkit-ebpf-runtime/src/loader.rs:237-254 | a removal is complete if and only if every id was tried and nothing failed afterwards |
| LeaseTerms.SweepOneExactly | src/agent/guest_ebpf.rs:220-240 | sweeping one entry marks it and the policies written as expired if it enforces and its deadline is reached, keeps their rules and other flags, and changes nothing otherwise |
| LeaseTerms.EnforcedOverRun | src/agent/guest_ebpf.rs:207-240 | over every run, from such a call on and as long as no operation touches an id, the kernel denies for it exactly up to the end of the lease |
| LeaseTerms.EnforcedAmongOthers | src/agent/guest_ebpf.rs:207-240 | so over every run whose later operations are for other targets and sweep before the lease ends, when no other entry covers the id |
| LeaseTable.PolicyTable.SweepEntries | src/agent/guest_ebpf.rs:220-240 | the loop over entries leaves kernel and entries as the specified sweep does, including partial writes |
| LeaseTable.PolicyTable.ApplyCall | src/agent/guest_ebpf.rs:356-380 | an apply or removal leaves kernel and entries as specified at every point of failure, and says whether it succeeded |
| LeaseTable.PolicyTable.SetPolicy | crates/guestkit-ebpf-runtime/src/loader.rs:229-235 | writes the policy under the ids in order up to the first failure |
| LeaseTable.PolicyTable.RemoveIds | crates/guestkit-ebpf-runtime/src/loader.rs:237-254 | drops the policies of the ids tried, except those that silently stay; succeeds if and only if all were tried and nothing later fails |
| LeaseAgreement.SweepIsSet | src/agent/guest_ebpf.rs:220-240 | on an agreeing table the sweep does not depend on the order of entries, however far each write got |
| LeaseAgreement.SweepAgreesExactly | src/agent/guest_ebpf.rs:220-240 | a sweep keeps agent and kernel in agreement, even on shared ids, if and only if its writes reach every id of every due entry; no entry is due afterwards |
| LeaseAgreement.KernelAfter | src/agent/guest_ebpf.rs:356-380 | the policy of every id after a call, wherever it fails |
| LeaseAgreement.EntriesAfter | src/agent/guest_ebpf.rs:356-380 | the entries after a call, wherever it fails |
| LeaseAgreement.ApplyAgreesExactly | src/agent/guest_ebpf.rs:356-380 | every call, succeeding or failing anywhere, keeps agreement if and only if no entry that stays loses an id or has another policy on an id that was written |
| LeaseAgreement.DisjointTargetsAgree | src/agent/guest_ebpf.rs:356-380 | a call that succeeds over targets without common ids keeps agreement |
| LeaseAgreement.RunAgrees | src/agent/guest_ebpf.rs:207-240 | agreement holds after every operation of a run whose sweeps reach every due id and whose calls disturb no entry, and nothing is due at the sweep's clock |
| LeaseAgreement.OverlapBreaksAgreement | src/agent/guest_ebpf.rs:356-380 | two targets over one id: the second, in audit mode, ends the enforcement the first still reports |
| LeaseAgreement.HalfWrittenBreaksAgreement | src/agent/guest_ebpf.rs:356-380 | one target re-applied in audit mode with its second write failing: it still reports enforcement on the first id |
| LeaseOrphans.FirstApplyOrphansExactly | src/agent/guest_ebpf.rs:356-380 | a first apply leaves a kernel policy that no entry knows of if and only if it wrote the id, failed before the last one, and no other entry knew it |
| LeaseOrphans.OrphanStays | src/agent/guest_ebpf.rs:207-240 | over every run that applies nothing to it, such a policy is neither swept nor turned off |
| LeaseOrphans.OffLeavesHalfApplied | src/agent/guest_ebpf.rs:341-362 | after a first enforcing apply that failed half-way, turning the target off succeeds and the first id is still denied |
| Subtree.SubtreeIds | src/agent/guest_ebpf.rs:261-272 | the work-stack walk ends and returns each readable directory as often as it occurs, the root first |
| Subtree.DistinctIds | src/agent/guest_ebpf.rs:261-272 | with distinct inode numbers the returned ids are pairwise distinct |
| Cidr.MaskedByte | crates/guestkit-ebpf-runtime/src/lib.rs:60-67 | masking compares exactly the leading bits of a byte |
| Cidr.PeerMatchesNetwork | crates/guestkit-ebpf-runtime/src/lib.rs:79-96 | comparing masked words is membership in the network, for both address families and every prefix length |
| Cidr.CompileExactly | crates/guestkit-ebpf-runtime/src/lib.rs:79-82 | a rule is refused if and only if it names a port under a protocol that has none |
| Cidr.CompiledRuleMeans | crates/guestkit-ebpf/src/netpolicy.rs:101-110 | a compiled rule matches a packet if and only if the stated rule allows it |
| Cidr.LoopbackMeans | crates/guestkit-ebpf/src/netpolicy.rs:93-98 | loopback is 127.0.0.0/8 or ::1 and nothing else |
| NetPolicy.Verdict | crates/guestkit-ebpf/src/netpolicy.rs:135-162 | the slot loop passes a packet exactly as the policy in the maps says |
| NetPolicy.AddRules | crates/guestkit-ebpf-runtime/src/loader.rs:217-222 | the rule slots in order, up to the one that fails |
| NetPolicy.EmptySlots | crates/guestkit-ebpf-runtime/src/loader.rs:131-138 | stale slots in any order, some of which may stay |
| NetPolicy.OutcomeExactly | crates/guestkit-ebpf-runtime/src/loader.rs:216-224 | which faults let an installation down, and where |
| NetPolicy.InstallOne | crates/guestkit-ebpf-runtime/src/loader.rs:216-224 | the maps of one id at the point where its writes fail or end |
| NetPolicy.NpApply | crates/guestkit-ebpf-runtime/src/loader.rs:208-226 | refuses too many rules, no ids or a failed attach without a change; otherwise installs id after id up to the first failure: ids before it hold policy and rules, and no other cgroup changes |
| NetPolicy.SlotsNeverMissingExactly | crates/guestkit-ebpf-runtime/src/loader.rs:203-226 | no point of an installation, in any removal order, shows a policy with a missing slot if and only if the rules do not become fewer |
| NetPolicy.FewerRulesShowGap | crates/guestkit-ebpf-runtime/src/loader.rs:216-224 | two rules replaced by one: a point at which the policy counts a slot that is gone |
| NetPolicy.ReplacementPassesExactly | crates/guestkit-ebpf-runtime/src/loader.rs:208-226 | a policed packet that old and new rules both allow passes at every point of the replacement if and only if some new rule that matches stands no later than some old one that does |
| NetPolicy.SwapDrops | crates/guestkit-ebpf-runtime/src/loader.rs:216-224 | two rules change places: a packet only the first allows passes before and after, and is dropped in between |
| NetPolicy.PolicyAsAsked | crates/guestkit-ebpf-runtime/src/lib.rs:98-111 | a direction is policed if and only if that was asked for, and violations are denied up to the deadline if and only if enforcement was |
| NetPolicy.RequestMeans | crates/guestkit-ebpf/src/netpolicy.rs:135-162 | end to end from the request: a packet is dropped if and only if its direction was asked for, it is not loopback, no stated rule allows it, and enforcement was asked for and is not over |
| NetPolicy.InstalledMeans | crates/guestkit-ebpf/src/netpolicy.rs:135-162 | end to end: under an installed policy a packet is dropped if and only if it is policed, not loopback, allowed by no stated CIDR rule, and the lease runs |
| Qmp.QmpClient.ReadJson | src/vm.rs:452-460 | takes one line off the stream |
| Qmp.QmpClient.Execute | src/vm.rs:425-450 | fails without reading when the command cannot be written; otherwise consumes up to the first reply or failing read and answers with it, an error before a return |
| Qmp.AwaitsFirst | src/vm.rs:430-449 | the first line that is no event and has an error or a return ends the command: the error is raised, otherwise the return is the answer; a failing read before it fails the command |
| Qmp.RunsDry | src/vm.rs:452-460 | a stream without either fails the command |
| Qmp.Connect | src/vm.rs:373-390 | succeeds if and only if the greeting is good and capabilities are negotiated, and that is then the only command sent |
| Qmp.RunCommands | src/vm.rs:425-450 | any number of commands after negotiation, in order, whatever fails, answered as the session says |
| Qmp.WrittenExactly | src/vm.rs:425-428 | which commands are sent, and in which order |
| Qmp.ExecuteTakesOneReply | src/vm.rs:425-450 | one command takes at most one reply, whatever events come before it |
| Qmp.RepliesConserved | src/vm.rs:425-460 | answers given and replies still unread are together the replies of the stream, in order |
| Qmp.PairedWithReplies | src/vm.rs:425-460 | when no write or read fails the i-th command gets exactly the i-th reply and the later replies stay unread |
| Qmp.ReplyNumber | src/vm.rs:425-460 | with failing writes and reads, an answered command gets the reply with its number less the failures before it |
| Shell.QuoteExactly | src/vm.rs:994-1002 | an argument is printed as it is if and only if it has only letters, digits and seven other characters, otherwise in single quotes |
| Shell.PrintedCommandReadsBack | src/vm.rs:994-1002 | a printed command reads back under the quoting rules of section 2.2 of the POSIX Shell Command Language if and only if no argument is empty |
| QemuArgsTheorems.EmptyArgument | src/vm.rs:745-880 | the only argument that can be empty is the pid file's path |
| QemuPlan.PlannedCommandRoundTrip | src/vm.rs:727-730 | for every definition that builds, the command a plan prints reads back as the binary of its architecture and its arguments |
| VmDefinition.NamesExactly | src/vm.rs:962-986 | exactly which texts are names and tokens |
| VmDefinition.ProblemsExactly | src/vm.rs:201-251 | validation answers with the first problem there is, in the order of its checks, and with none if and only if there is none |
| VmDefinition.PlanReasons | src/vm.rs:693-742 | the reasons pushed are exactly those that apply |
| VmDefinition.StartProblemsAreReasons | src/vm.rs:234-251 | what start validation rejects of a loaded definition is among the plan's reasons |
| QemuArgs.BuildQemuArgs | src/vm.rs:745-880 | succeeds if and only if the definition is valid, its paths are text and its ssh port is not zero; the list is the rendering of the intended options |
| QemuArgs.ReadyPlanBuilds | src/vm.rs:693-751 | a ready plan passes start validation, and builds if and only if paths are text and the ssh port is not zero |
| QemuArgsTheorems.ReadsBackExactly | src/vm.rs:754-877 | rendered options, split at single commas as QEMU does with two commas standing for one, give back the same keys and values if and only if the pieces have no comma |
| QemuArgsTheorems.OptionsReadBack | src/vm.rs:754-877 | for every accepted definition that is so if and only if the paths inside option strings have no comma |
| QemuPlan.CommaInPath | src/vm.rs:784-794 | a definition on an image with a comma in its path is built, and its drive does not read back |
| QemuReads.ArgsSay | src/vm.rs:754-877 | every built list without a comma in a listed path reads back, as QEMU splits it, as options that say what the definition asks for: name, processors, memory, machine, QMP socket, pid file, image with format and write protection, disk bus, firmware, network with its settings, vsock address |
| QemuReads.ArgsDetermine | src/vm.rs:754-877 | two builds with the same list agree on all of that |
| QemuIds.OptionsWellFormed | src/vm.rs:754-877 | declared ids are pairwise distinct and every reference names an id declared earlier |
| QemuIds.ReadOptionsWellFormed | src/vm.rs:754-877 | the same of the argument list as QEMU splits it |
| VmLifecycle.PathsNeverCoincide | src/vm.rs:286-299 | definition, temporary, pid and socket paths determine kind and VM name, whatever the two directories |
| VmLifecycle.TempIsWithExtension | src/vm.rs:301-309 | the temporary name is the definition's with its extension replaced, for names with dots too |
| VmManager.Manager.CleanupRuntime | src/vm.rs:349-358 | removes the socket and the pid file of one VM, up to the removal that fails, and says whether both are gone |
| VmManager.Manager.ReadPidFile | src/vm.rs:921-931 | tells no file, trimmed text that is a 32-bit number, and any other text apart |
| Text.ParseI32Exactly | src/vm.rs:921-931 | digits with or without a sign are a number if and only if it lies in the signed 32-bit range |
| Text.ParseI32Refuses | src/vm.rs:921-931 | anything else is not |
| VmLifecycle.PidReadsBack | src/vm.rs:921-931 | the line QEMU writes for a pid reads back as that pid |
| VmManager.Manager.See | src/vm.rs:614-637 | the looking step of a query: no answer, the pid file of a dead process, or the state; nothing changes |
| VmManager.Manager.State | src/vm.rs:614-637 | looks, and sweeps up after a dead process, when nothing comes between the two |
| VmManager.Manager.CheckStart | src/vm.rs:569-589 | the check of a start: exactly when it may go on, and the steps of the interleaved machine it stands for |
| VmManager.Manager.LaunchVm | src/vm.rs:590-596 | the last step of a start: the process and its pid file |
| VmManager.Manager.StartVm | src/vm.rs:569-597 | launches if and only if the VM is known, inactive, allowed, cleaned up and QEMU starts; the host changes as specified when nothing comes between the steps |
| VmManager.Manager.EndProcesses | src/vm.rs:655-665 | who ends: the process that answers quit, the one in the pid file, and whatever a pid of zero or less reaches when quit fails |
| VmManager.Manager.DestroyVm | src/vm.rs:655-667 | ends the processes and cleans up as specified; succeeds exactly with a proper name, a readable or absent pid file and a complete cleanup |
| VmManager.Manager.UndefineVm | src/vm.rs:669-681 | succeeds if and only if the name is proper, an active VM is forced and destroyed, and its definition can be deleted; then the VM has no state, otherwise its definition is as it was |
| VmManager.Manager.DeleteDefinition | src/vm.rs:341-347 | removes the definition if it is there and can be removed |
| VmOneLive.StateExactly | src/vm.rs:614-637 | exactly which state is answered, on the files, the processes and the report's own fields |
| VmOneLive.StateSweepsExactly | src/vm.rs:622-625 | a query changes nothing but the socket and pid file of a process that is gone |
| VmManager.Manager.SaveDefinition | src/vm.rs:301-309 | a proper and valid definition goes through the temporary file into place; otherwise nothing changes |
| VmOutcomes.DefineThenLoad | src/vm.rs:301-318 | a saved definition loads as it was saved, no temporary file stays, nothing else changes |
| VmOutcomes.StartedIsUp | src/vm.rs:569-597 | a start that launches leaves a live process that the pid file names, no socket yet, everything else as it was, and the VM starting |
| VmOutcomes.NotStarted | src/vm.rs:569-597 | a start that does not launch starts and ends no process, and one refused for an active VM changes nothing |
| VmOutcomes.DestroyedIsDown | src/vm.rs:655-667 | after a destroy that succeeds the process is dead, pid file and socket are gone, everything else is as it was, and the VM is shut off |
| VmOutcomes.DestroyWithoutPid | src/vm.rs:655-665 | without a pid file a destroy ends at most the process that answers quit on the VM's socket |
| VmOutcomes.UnforcedEndsNothing | src/vm.rs:669-681 | an undefine that is not forced ends no process |
| VmOutcomes.UndefineExactly | src/vm.rs:669-681 | exactly when the definition is gone after an undefine; otherwise it is as it was |
| VmOutcomes.UndefinedIsUnknown | src/vm.rs:669-681 | after that the VM has no state and cannot be started |
| VmOneLive.StepTracked | src/vm.rs:569-681 | every operation keeps each live process named by its VM's pid file |
| VmOneLive.AtMostOneLive | src/vm.rs:569-681 | over every run with truthful reports and unused pids no VM has two live processes |
| VmOneLive.StartDoublesExactly | src/vm.rs:569-637 | a start that nothing interrupts puts a second process next to a live one if and only if the socket exists, QMP is silent or reports that nothing runs with a text other than running and paused, and nothing else stops it |
| VmInterleaving.QueryInSteps | src/vm.rs:614-637 | looking and sweeping in a row are the whole query |
| VmInterleaving.StartInSteps | src/vm.rs:569-597 | looking, sweeping, cleanup and launch in a row are the whole start |
| VmInterleaving.DestroyInSteps | src/vm.rs:655-667 | reading the pid, ending the processes and cleaning up in a row are the whole destroy |
| VmInterleaving.UndefineInSteps | src/vm.rs:669-681 | a query, a destroy if the VM is active, and the removal in a row are the whole undefine |
| VmInterleaving.OneLiveExactly | src/vm.rs:569-681 | in every interleaving of the steps of queries, starts, destroys and undefines, no VM ever has two live processes if and only if no launch has another process of its VM alive that its check overlooked or that was launched since |
| VmInterleaving.WhyTwo | src/vm.rs:569-637 | a launch next to a live process of its VM: another start launched it after this start's check, or the check overlooked it |
| VmInterleaving.OneAtATimeKeepsOneLive | src/vm.rs:569-681 | in every interleaving with at most one start or destroy under way per VM, no live instance missed, and no query that has yet to sweep spanning a launch of its VM, no VM has two live processes |
| VmInputs.SecondQemu | src/vm.rs:569-637 | define, start, socket, and a start that gets no answer: two live processes |
| VmInputs.OverlappingStarts | src/vm.rs:569-597 | a start that checks before another launches, and then cleans up and launches after it: two live processes, that check being the only step out of order |
| VmInputs.LateSweep | src/vm.rs:614-637 | a query looks at a dead process and sweeps after the next launch; a later start alone then makes two live processes, that launch being the only step out of order |
| VmFrame.OtherVmsUntouched | src/vm.rs:341-358 | one operation leaves files and processes of every other VM unchanged |
| VmFrame.RunLeavesOthersAlone | src/vm.rs:569-681 | over a whole run of operations on other VMs, failing or not, a VM's files and processes stay as they were |
| VmFrame.DestroySparesOthersExactly | src/vm.rs:655-665 | a destroy ends no other VM's process if and only if whoever answers quit is its own, its pid file names none of theirs, and a pid of zero or less reaches none of them when quit fails |
| VmFrame.DestroyEndsExactly | src/vm.rs:655-665 | exactly which live processes a destroy ends |
| VmFrame.StrayPidEndsAll | src/vm.rs:655-665 | with -1 in its pid file and no answer to quit, destroying one VM ends every process |
| Channels.ChannelPlans | src/agent/daemon.rs:55-95 | the primary, then next to a virtio primary the existing extra nodes with another path; push is refused for one text only |
| Channels.PlansOf | src/agent/daemon.rs:55-95 | the primary is first and alone required, no path occurs twice, and a plan is push-capable unless it is virtio on `VIRTIO_DEVICE_PATH` |
| Channels.InvHolds | src/agent/state.rs:31-40 | in every interleaving, subscribed or about to be notified implies push-capable |
| Channels.PushedOnlyToSubscribers | src/agent/heartbeat.rs:251-285 | every notification goes to a channel registered and subscribed at its tick's snapshot |
| Channels.PlanOfChannel | src/agent/daemon.rs:189-263 | a channel keeps the plan it was opened with |
| ChannelTerms.SubscribedExactly | src/agent/state.rs:31-40 | in every interleaving a channel is subscribed if and only if it was push-capable when it asked for heartbeats and has neither unsubscribed nor failed a notification since |
| ChannelTerms.RegisteredExactly | src/agent/state.rs:90-103 | a channel is registered if and only if it was opened and no answer on it has failed since |
| ChannelTerms.TickInOrder | src/agent/heartbeat.rs:251-285 | a tick writes to the channels registered and subscribed at its snapshot, in the order of registration, each in its turn |
| ChannelTerms.SkipEndsTick | src/agent/heartbeat.rs:251-285 | a tick whose heartbeat cannot be built writes nothing more |
| ChannelTerms.CanGoOn | src/agent/heartbeat.rs:251-285 | in every reachable state the agent can go on with requests, new channels and the tick |
| Channels.SamePortName | src/agent/transport/virtio.rs:14-21 | the QGA port has one name on both platforms |
| Channels.PushedOnRequest | src/agent/heartbeat.rs:251-285 | every notification goes to a channel that was opened push-capable and has asked for heartbeats |
| Channels.QgaQuietExactly | src/agent/daemon.rs:55-60 | over every interleaving no notification reaches the QGA port if and only if no virtio channel that may ask for heartbeats opens that port under another text than `VIRTIO_DEVICE_PATH` |
| Channels.WindowsDefaultPushes | src/agent/transport/virtio.rs:14-21 | the Windows default opens the QGA port, is push-capable, and gets notifications |
| Channels.EmptyPathPushes | src/agent/transport/virtio.rs:42-47 | so does an empty path, on either platform |
| ChannelRegistry.Registry.Register | src/agent/state.rs:90-95 | appends the handle |
| ChannelRegistry.Registry.Unregister | src/agent/state.rs:98-103 | drops that handle, by identity, and keeps the others in order |
| ChannelRegistry.Registry.SubscribeEvents | src/agent/handler.rs:863-904 | subscribes if and only if there is a channel, it is push-capable and heartbeats are asked for |
| ChannelRegistry.Registry.UnsubscribeEvents | src/agent/handler.rs:906-916 | the channel is not subscribed afterwards |
| ChannelRegistry.Registry.Tick | src/agent/heartbeat.rs:251-285 | writes to the subscribed handles in order, all push-capable, and unsubscribes exactly those whose write fails |
| FileTree.ResolvesToCanonical | src/agent/file_ops.rs:19-49 | what resolving a path yields has no symbolic link on it, over every tree |
| FileTree.CanonicalResolves | src/agent/file_ops.rs:19-49 | a path without links resolves to itself |
| FileOps.AuthorizedIsConfined | src/agent/file_ops.rs:19-49 | an authorised path has no link above its last name and lies under a resolved allowed prefix; for reading it is fully resolved |
| FileWalks.ResolvesExactly | src/agent/file_ops.rs:24 | over every tree, resolving a path yields a place if and only if the walk the path names ends there within the link budget, where `..` leads to the containing directory and a link to its target from the root or its own directory |
| FileWalks.LandsExactly | src/agent/file_ops.rs:91-108 | opening for writing lands on a place if and only if that walk ends there, no directory, or in the directory in which its last name is free |
| FileWalks.DotDotIsParent | src/agent/file_ops.rs:24 | a path followed by `..` is the parent of what it resolves to, links included, if that is a directory |
| FileWalks.ReadAuthorizedExactly | src/agent/file_ops.rs:19-49 | a read is authorised for a place if and only if the path names it and an allowed prefix names a place at or above it |
| FileWalks.WriteAuthorizedExactly | src/agent/file_ops.rs:19-49 | so is a write, or the path names nothing and its parent the directory of the place |
| FileNames.PathReadsBack | src/agent/file_ops.rs:23 | a path written out from its names reads back as them |
| FileNames.SlashSeparates | src/agent/file_ops.rs:23 | slashes separate names wherever and however many they are |
| FileNames.PathMarks | src/agent/file_ops.rs:23 | which paths are absolute, empty, or end in their directory |
| FileNames.NewFileExactly | src/agent/file_ops.rs:26-33 | a path to a free name in an existing directory is located there for a write, except a bare name, which has no parent |
| FileLanding.ReadsWhereItLands | src/agent/file_ops.rs:91-108 | over every tree, what reading a path yields is what stands where opening it for writing lands |
| FileLanding.SeenWhereItLands | src/agent/file_ops.rs:91-108 | a file written somewhere is seen through exactly the paths that land there, and moves no landing |
| FileOpsTheorems.WriteChanges | src/agent/file_ops.rs:91-108 | over every tree and wherever it stops, a write changes only where its side files land, the temporary name and the target |
| FileOpsTheorems.ConfinedExactly | src/agent/file_ops.rs:91-108 | over every tree, at every stop and for any bytes, all changes lie under the prefixes if and only if every step that is taken lands under them |
| FileOpsTheorems.PlainSidesLandInside | src/agent/file_ops.rs:91-108 | they do so below an allowed directory when neither side file is a link |
| FileOpsTheorems.AuthorizedWriteConfined | src/agent/file_ops.rs:74-109 | end to end: an authorised write stays under the resolved allowed prefixes, wherever it stops, if and only if its side files land under them |
| FileOpsTheorems.AllOrNothingExactly | src/agent/file_ops.rs:91-108 | over every tree, at every stop the target is as before or completely new, if and only if its side files land apart from it (or it is empty and its own backup) and the temporary name is no link |
| FileOpsTheorems.WriteResult | src/agent/file_ops.rs:91-108 | a write completes if and only if its side files can be opened; the temporary name is then gone, and the target is the new file if and only if that name was no link |
| FileOpsTheorems.BackupKeptExactly | src/agent/file_ops.rs:92-99 | whatever is written, the backup holds the old content if and only if it lands apart from the temporary file and the target |
| FileOpsInputs.EscapingInputs | src/agent/file_ops.rs:91-108 | a link under the temporary name of /d/c.txt, and /d/c.txt itself as allowed prefix: writes that leave the prefix |
| FileOpsInputs.TornInput | src/agent/file_ops.rs:92-95 | a backup name that links to the target: the write is not all or nothing |
| FileRaces.OwnBytesExactly | src/agent/file_ops.rs:91-108 | over all interleavings of two writes on plain places, each that finishes has its own bytes in its target if and only if neither's temporary file is the other's temporary file or target |
| FileRaces.SameStemMixes | src/agent/file_ops.rs:91-108 | a.txt and a.conf: some interleaving puts one's bytes into the other |
| FileKept.KeptExactly | src/agent/file_ops.rs:91-108 | over all interleavings of two writes on plain places, each that finishes has its own bytes in its target from then on if and only if, besides, neither's target is where the other backs up an existing file of other bytes |
| FileKept.BackupNameLosesBytes | src/agent/file_ops.rs:91-99 | a.guestkit-bak next to an existing a.txt that is being replaced: its bytes are lost |
| FileStore.ReachedExactly | src/agent/file_ops.rs:91-108 | a write gets to its end if and only if every step can be taken and no fault is in its way; otherwise where it stops |
| FileStore.Files.Read | src/agent/file_ops.rs:51-72 | returns bytes if and only if they are within the cap and those of a file that the text names, with an allowed prefix at or above it |
| FileStore.Files.Write | src/agent/file_ops.rs:74-109 | changes nothing over the cap or without a place the text may write; otherwise leaves the tree at the stopping point that openable side files and a fault of the system determine, and succeeds if and only if that is the end |
| NetIntel.Summarize | src/agent/netintel.rs:214-263 | listeners, connections, established and remote counts, and per-edge flow counts of the whole input |
| NetIntel.SameEdgeExactly | src/agent/netintel.rs:236-240 | two flows share an edge if and only if process, unit, address and port agree |
| NetIntel.OutboundExactly | src/agent/netintel.rs:226-239 | exactly which connections count as egress |
| NetIntel.ListenerExactly | src/agent/netintel.rs:215-219 | exactly which sockets count as listeners |
| NetIntel.KeepAppend | src/agent/netintel.rs:214-219 | listeners and connections keep the order of the input |
| NetIntel.SummaryAccounts | src/agent/netintel.rs:214-263 | the input is split as a multiset, the counts add up to all established non-local flows, and remotes, edges, flows and established sockets are ordered |
| Integrity.LoadsExactly | src/agent/integrity.rs:307-344 | a baseline loads if and only if it carries its own digest; under another's digest if and only if only the capture time differs; altered and sealed again it loads |
| Integrity.DiffMap | src/agent/integrity.rs:448-482 | pushes the changes of the current keys, then of the gone ones |
| Integrity.DiffIsExact | src/agent/integrity.rs:448-482 | one change per differing key and none otherwise; removed and added keys turn the old key set into the new; empty if and only if the maps are equal |
| Integrity.DiffReports | src/agent/integrity.rs:448-482 | what the loops push is such a diff, in any key order |
| Integrity.DiffList | src/agent/integrity.rs:484-514 | pushes every current item missing before and, unless additions only, every old item missing now |
| Integrity.MissingMeans | src/agent/integrity.rs:492-513 | those items exactly |
| Integrity.Check | src/agent/integrity.rs:355-446 | no report without a loadable baseline; otherwise all changes, their counts, and the tampering verdict |
| IntegrityReports.ReportedExactly | src/agent/integrity.rs:355-430 | a change is reported, with its category, kind and severity, if and only if the baseline and the current state differ so in that category |
| IntegrityReports.HighCountExactly | src/agent/integrity.rs:430-442 | the high count is the number of reported changes that are high |
| Integrity.TamperedExactly | src/agent/integrity.rs:430-442 | tampered if and only if a privileged binary, key file, kernel module or sudoers entry was added or altered; removals never count |
| Integrity.QuietExactly | src/agent/integrity.rs:355-446 | no change is reported if and only if maps are equal, sudoers entries are the same and the other lists gained nothing |
| Inject.FixPlan.AppendAgentOps | src/agent/inject.rs:29-108 | appends the four operations, or tag and first operation only when staging fails, and leaves the unit in the staging file of the process |
| Inject.InstallExactly | src/agent/inject.rs:29-108 | an install copies the binary and, if the unit was staged, copies the unit, makes the binary executable and enables the service, each depending on what it needs |
| Inject.PushExactly | src/assurance/inject.rs:93-106 | a payload is one operation that depends on nothing |
| Inject.OwnUnitExactly | src/agent/inject.rs:49-51 | over any calls of one process, on any plans, an install gets its own unit if and only if the last call to touch the staging file left the same text |
| Inject.SecondUnitForBoth | src/agent/inject.rs:49-51 | two installs before either plan is carried out: both copy the second unit |
| Inject.StagingApart | src/agent/inject.rs:49-51 | processes share a staging file if and only if they are the same |
| Inject.FixPlan.PushPayload | src/assurance/inject.rs:93-106 | appends one operation numbered by its position |
| Inject.IdsDiffer | src/agent/inject.rs:31-34 | zero-padded numbers under the two prefixes never coincide, past three digits too |
| Inject.IdsDistinctExactly | src/agent/inject.rs:29-108 | over any calls the added ids are distinct, and the whole plan's are if and only if they were and no old id is the padded number of a position the calls fill, under that call's prefix |
| Inject.NewAreNumbered | src/agent/inject.rs:31-34 | every added operation is numbered by its position under one of the two prefixes |
| Inject.PlanStaysOrdered | src/agent/inject.rs:29-108 | on a plan using neither prefix, every dependency of an added operation names exactly one operation, an earlier one |

## Left out

- The bodies behind dispatched methods and QGA commands: an outcome that is a value or an error stands for each.
- The table from wire names to methods, error message texts, audit records.
- JSON, base64, globs, RFC 3339, SHA-256 and UTF-8: taken as already parsed values or as function parameters.
- Timestamps so large that adding the time to live overflows and aborts.
- The size of the idempotency cache, which the source does not bound.
- Parsing packet headers in the kernel programs, counters, events, and attaching programs beyond whether it worked.
- `parse_cidr`, `parse_device`, `parse_cgroup_v2`, `cgroup_dir`, `target_key` and container lookup: easy members.
- LSM allow lists and detaching the hooks; the lease machine is shared by both policy kinds.
- Lease.LeaseSafety: covers calls whose clock is not ahead of the moment asked about; the source's clock is monotonic.
- VmOneLive.AtMostOneLive: assumes live instances report running, paused or have no socket yet, that pids are not reused, and that operations come one after the other; `StartDoublesExactly` and `VmInterleaving.OneLiveExactly` say what happens otherwise.
- VmManager.Manager.StartVm: does not model waiting for the socket after the launch.
- VmManager.Manager.EndProcesses: takes SIGTERM to a group and SIGKILL to a process as effective, and their waits as over.
- VmInterleaving.OneLiveExactly: reading a pid file and asking after its process is one step, and so are the signals of a destroy.
- FileOpsTheorems.AllOrNothingExactly: the tree has no hard links; a backup that is one of the target is not covered.
- FileOpsTheorems.ConfinedExactly: the tree has no hard links.
- FileOpsTheorems.AuthorizedWriteConfined: the tree has no hard links, and does not change between authorisation and write.
- FileRaces.OwnBytesExactly: does not cover side files that are links; whole steps interleave, not single bytes.
- FileKept.KeptExactly: likewise.
- NetIntel.Summarize: the order of the egress list, which follows the map's key order, and the collection time.
- Integrity.DiffMap: the key order is a parameter, since sorted order does not matter to any result.
- Collectors, transports, the HTTP bridge, Python bindings, YAML templates, heartbeat payloads and the retry pacing of the daemon.
