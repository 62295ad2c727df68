/** The methods by what they may do (crates/guestkit-agent-protocol/src/rpc.rs,
    src/agent/policy.rs). */
module RpcTables {
  import opened Wrappers
  import opened Rpc

  /** The methods that only read; whatever is not known reads, too. */
  predicate Reads(m: Method) {
    || m.Unknown?
    || m.Ping? || m.GetVersion? || m.GetCapabilities? || m.GetEvidence? || m.GetStatus? || m.Doctor?
    || m.MigrateScore? || m.GetMetrics? || m.GetFilesystem? || m.GetGuestHealth? || m.GetSystemdUnits?
    || m.GetFailedUnits? || m.GetBootAnalysis? || m.GetJournalSlice? || m.GetLoginState?
    || m.GetDnsState? || m.GetTimedateState? || m.GetSnapshotReadiness? || m.CollectSupportBundle?
    || m.GetGuestInfo? || m.GetSystemdUnit? || m.GetSystemdEvents? || m.GetProcesses?
    || m.GetAgentHealth? || m.GetCpuStats? || m.GetMemoryStats? || m.GetPerformanceSummary?
    || m.GetPerformanceHistory? || m.GetProcess? || m.NetworkTest? || m.NetworkConnections?
    || m.SecurityPosture? || m.FileRead? || m.FileStat? || m.FileList? || m.FileChecksum?
    || m.ContainersInventory? || m.IntegrityCheck? || m.PackagesInventory? || m.PackagesUpdates?
    || m.CertificatesInventory? || m.UsersInventory? || m.MigrationAssess? || m.MigrationPlan?
    || m.MigrationPreCheck? || m.MigrationValidate? || m.BaselineCapture? || m.BaselineDiff?
    || m.NetpolicyStatus? || m.LsmStatus?
  }

  /** Every method either only reads or mutates. */
  lemma MutatingExactly(m: Method)
    ensures m.Mutating() <==> !Reads(m)
  {
  }

  /** Negotiation only reads, and is behind no switch. */
  lemma NegotiationExactly(m: Method)
    ensures m.Negotiation() <==> m.Ping? || m.GetVersion? || m.GetCapabilities?
    ensures m.Negotiation() ==> Reads(m) && Switch(m).None?
  {
  }

  /** The methods behind each switch. */
  predicate Behind(m: Method, c: Capability) {
    match c
    case Inventory =>
      m.GetEvidence? || m.GetGuestInfo? || m.GetStatus? || m.GetFilesystem? || m.GetProcesses?
      || m.GetProcess? || m.GetSystemdUnits? || m.GetSystemdUnit? || m.GetFailedUnits?
      || m.GetSystemdEvents? || m.NetworkConnections? || m.SecurityPosture? || m.ContainersInventory?
      || m.InventoryCacheWrite?
    case Telemetry =>
      m.GetMetrics? || m.GetCpuStats? || m.GetMemoryStats? || m.GetPerformanceSummary?
      || m.GetPerformanceHistory?
    case Events =>
      m.SubscribeEvents?
    case NetTest =>
      m.NetworkTest?
    case FileOps =>
      m.FileRead? || m.FileWrite? || m.FileStat? || m.FileList? || m.FileChecksum?
    case Rescan =>
      m.StorageRescan?
    case Trim =>
      m.StorageTrim?
    case Expand =>
      m.StorageExpand?
    case ServiceControl =>
      m.StartUnit? || m.StopUnit? || m.RestartUnit?
    case Assessment =>
      m.MigrationAssess? || m.MigrationPlan? || m.MigrationPreCheck? || m.MigrationValidate?
      || m.BaselineCapture? || m.BaselineDiff?
    case Repair =>
      m.MigrationRepair?
    case PackageInventory =>
      m.PackagesInventory?
    case PackageUpdates =>
      m.PackagesUpdates?
    case PackageInstall =>
      m.PackagesInstall?
    case Certificates =>
      m.CertificatesInventory?
    case Users =>
      m.UsersInventory?
    case Integrity =>
      m.IntegrityBaseline? || m.IntegrityCheck?
    case Customization =>
      m.SetHostname? || m.SetTimezone? || m.SetDns?
    case Ebpf =>
      m.NetpolicyApply? || m.NetpolicyStatus? || m.LsmApply? || m.LsmStatus?
  }

  /** The methods behind none. */
  predicate Unswitched(m: Method) {
    || m.Unknown?
    || m.Ping? || m.GetVersion? || m.GetCapabilities? || m.Doctor? || m.MigrateScore? || m.Exec?
    || m.EnableRdp? || m.DisableRdp? || m.RunFixPlan? || m.RunFixPlanRollback? || m.GetGuestHealth?
    || m.GetBootAnalysis? || m.GetJournalSlice? || m.GetLoginState? || m.GetDnsState?
    || m.GetTimedateState? || m.GetSnapshotReadiness? || m.FreezeFilesystem? || m.ThawFilesystem?
    || m.ExecuteRemediationPlan? || m.CollectSupportBundle? || m.GetAgentHealth? || m.UnsubscribeEvents?
    || m.SetTime? || m.TimeSyncNow? || m.Reboot? || m.Shutdown? || m.SnapshotPrepare?
    || m.SnapshotComplete? || m.MigrationCutoverEnter? || m.MigrationCutoverExit?
  }

  /** The switch the policy asks for a method is the one it is behind; it asks none only for
      those behind none. */
  lemma SwitchExactly(m: Method)
    ensures if Switch(m).Some? then Behind(m, Switch(m).value) else Unswitched(m)
  {
  }

  /** Turning a switch off refuses exactly the methods behind it, of those that were let in. */
  lemma TurnedOff(p: Policy, matches: (string, string) -> bool, m: Method, wireName: string, c: Capability)
    ensures Authorized(p.(enabled := p.enabled - {c}), matches, m, wireName)
       <==> Authorized(p, matches, m, wireName) && Switch(m) != Some(c)
  {
  }
}
