/** JSON-RPC messages and the local policy that authorises them
    (crates/guestkit-agent-protocol/src/rpc.rs, src/agent/policy.rs). */
module Rpc {
  import opened Wrappers

  datatype Json =
    | Null
    | Bool(b: bool)
    | Number(n: real)
    | Text(s: string)
    | Array(items: seq<Json>)
    | Object(fields: seq<(string, Json)>)

  datatype Method =
    | Ping | GetVersion | GetCapabilities
    | GetEvidence | GetStatus | Doctor | MigrateScore | GetMetrics | GetFilesystem
    | Exec | EnableRdp | DisableRdp | RunFixPlan | RunFixPlanRollback
    | GetGuestHealth | GetSystemdUnits | GetFailedUnits | GetBootAnalysis | GetJournalSlice
    | GetLoginState | GetDnsState | GetTimedateState | GetSnapshotReadiness
    | FreezeFilesystem | ThawFilesystem | RestartUnit | ExecuteRemediationPlan | CollectSupportBundle
    | GetGuestInfo | GetSystemdUnit | GetSystemdEvents | GetProcesses
    | GetAgentHealth | SubscribeEvents | UnsubscribeEvents
    | GetCpuStats | GetMemoryStats | GetPerformanceSummary | GetPerformanceHistory
    | StartUnit | StopUnit | GetProcess | NetworkTest | NetworkConnections | SecurityPosture
    | StorageRescan | StorageTrim | StorageExpand
    | FileRead | FileWrite | FileStat | FileList | FileChecksum
    | SetTime | TimeSyncNow | Reboot | Shutdown | SnapshotPrepare | SnapshotComplete
    | ContainersInventory | InventoryCacheWrite | IntegrityBaseline | IntegrityCheck
    | PackagesInventory | PackagesUpdates | PackagesInstall | CertificatesInventory | UsersInventory
    | SetHostname | SetTimezone | SetDns
    | MigrationAssess | MigrationPlan | MigrationRepair | MigrationPreCheck
    | MigrationCutoverEnter | MigrationCutoverExit | MigrationValidate | BaselineCapture | BaselineDiff
    | NetpolicyApply | NetpolicyStatus | LsmApply | LsmStatus
    | Unknown(name: string)
  {
    predicate Negotiation() {
      Ping? || GetVersion? || GetCapabilities?
    }

    predicate Mutating() {
      || Exec? || EnableRdp? || DisableRdp? || RunFixPlan? || RunFixPlanRollback?
      || FreezeFilesystem? || ThawFilesystem? || RestartUnit? || ExecuteRemediationPlan?
      || StartUnit? || StopUnit? || StorageRescan? || StorageTrim? || StorageExpand?
      || FileWrite? || SetTime? || TimeSyncNow? || Reboot? || Shutdown? || MigrationRepair?
      || SnapshotPrepare? || SnapshotComplete? || PackagesInstall?
      || SetHostname? || SetTimezone? || SetDns? || InventoryCacheWrite? || IntegrityBaseline?
      || MigrationCutoverEnter? || MigrationCutoverExit? || SubscribeEvents? || UnsubscribeEvents?
      || NetpolicyApply? || LsmApply?
    }
  }

  /** An RFC 3339 timestamp once parsed: nanoseconds, or text that is no timestamp. */
  datatype Timestamp = Malformed | At(ns: int)

  datatype Request = Request(
    jsonrpc: string,
    wireName: string,
    op: Method,
    params: Json,
    id: Option<Json>,
    ts: Option<Timestamp>,
    ttlMs: Option<nat>,
    nonce: Option<string>,
    idempotencyKey: Option<string>)

  /** The bytes of a frame once the JSON parser has seen them. */
  datatype Frame = NotJson | Parsed(req: Request)

  datatype ErrorCode =
    | ParseError | InvalidRequest | MethodNotFound | InvalidParams | InternalError
    | NotImplemented | CapabilityDenied | PlanApplyFailed
    | RequestExpired | ReplayDetected | PolicyDenied

  datatype Response = Response(result: Option<Json>, error: Option<ErrorCode>, id: Option<Json>)

  function Success(id: Option<Json>, value: Json): Response {
    Response(Some(value), None, id)
  }

  function Failure(id: Option<Json>, code: ErrorCode): Response {
    Response(None, Some(code), id)
  }

  datatype Capability =
    | Inventory | Telemetry | Events | NetTest | FileOps
    | Rescan | Trim | Expand | ServiceControl | Assessment | Repair
    | PackageInventory | PackageUpdates | PackageInstall
    | Certificates | Users | Integrity | Customization | Ebpf

  datatype Security = Security(requireExpiry: bool, maxTtlMs: nat, nonceCacheSize: nat)

  /** `matches(p, name)` stands for the glob library: pattern `p` matches the wire name. */
  datatype Policy = Policy(enabled: set<Capability>, allow: seq<string>, deny: seq<string>, security: Security)

  /** The switch a method is behind, if any. */
  function Switch(m: Method): Option<Capability> {
    match m
    case GetEvidence | GetGuestInfo | GetStatus | GetFilesystem | GetProcesses | GetProcess
       | GetSystemdUnits | GetSystemdUnit | GetFailedUnits | GetSystemdEvents
       | NetworkConnections | SecurityPosture | ContainersInventory | InventoryCacheWrite => Some(Inventory)
    case GetMetrics | GetCpuStats | GetMemoryStats | GetPerformanceSummary | GetPerformanceHistory => Some(Telemetry)
    case SubscribeEvents => Some(Events)
    case NetworkTest => Some(NetTest)
    case FileRead | FileWrite | FileStat | FileList | FileChecksum => Some(FileOps)
    case StorageRescan => Some(Rescan)
    case StorageTrim => Some(Trim)
    case StorageExpand => Some(Expand)
    case StartUnit | StopUnit | RestartUnit => Some(ServiceControl)
    case MigrationAssess | MigrationPlan | MigrationPreCheck | MigrationValidate
       | BaselineCapture | BaselineDiff => Some(Assessment)
    case MigrationRepair => Some(Repair)
    case PackagesInventory => Some(PackageInventory)
    case PackagesUpdates => Some(PackageUpdates)
    case PackagesInstall => Some(PackageInstall)
    case CertificatesInventory => Some(Certificates)
    case UsersInventory => Some(Users)
    case IntegrityBaseline | IntegrityCheck => Some(Integrity)
    case SetHostname | SetTimezone | SetDns => Some(Customization)
    case NetpolicyApply | NetpolicyStatus | LsmApply | LsmStatus => Some(Ebpf)
    case _ => None
  }

  predicate Authorized(p: Policy, matches: (string, string) -> bool, m: Method, wireName: string) {
    && !(exists d :: d in p.deny && matches(d, wireName))
    && (p.allow == [] || exists a :: a in p.allow && matches(a, wireName))
    && (Switch(m).Some? ==> Switch(m).value in p.enabled)
  }
}
