/** Exactly which changes a tamper check reports (src/agent/integrity.rs). */
module IntegrityReports {
  import opened Wrappers
  import opened Integrity

  // ---- One category --------------------------------------------------------------------

  /** A change between two maps: a key that is new or has another value, at the category's
      severity, or one that is gone, at low severity. */
  ghost predicate MapChanged(base: Table, cur: Table, severity: Severity, x: Change) {
    match x.kind
    case Added => x.item in cur && x.item !in base && x.severity == severity
    case Modified => x.item in cur && x.item in base && cur[x.item] != base[x.item] && x.severity == severity
    case Removed => x.item in base && x.item !in cur && x.severity == Low
  }

  /** A change between two lists: an item that is new, or, where removals count, one that is gone. */
  ghost predicate ListChanged(base: seq<string>, cur: seq<string>, severity: Severity, removals: bool, x: Change) {
    match x.kind
    case Added => x.item in cur && x.item !in base && x.severity == severity
    case Modified => false
    case Removed => removals && x.item in base && x.item !in cur && x.severity == Low
  }

  /** What is looked at in each category, and how severe it is. */
  ghost predicate Changed(b: Baseline, c: Baseline, x: Change) {
    match x.category
    case SuidSgid => MapChanged(b.suidSgid, c.suidSgid, High, x)
    case AuthorizedKeys => MapChanged(b.authorizedKeys, c.authorizedKeys, High, x)
    case KernelModule => ListChanged(b.kernelModules, c.kernelModules, High, false, x)
    case Sudoers => ListChanged(b.sudoers, c.sudoers, High, true, x)
    case Listener => MapChanged(b.listeners, c.listeners, Medium, x)
    case Cron => ListChanged(b.cronJobs, c.cronJobs, Medium, false, x)
    case SystemdTimer => ListChanged(b.systemdTimers, c.systemdTimers, Medium, false, x)
    case WorldWritable => ListChanged(b.worldWritable, c.worldWritable, Medium, false, x)
  }

  lemma MapReported(keysOf: Walk, base: Table, cur: Table, category: Category, severity: Severity, x: Change)
    requires forall m :: Lists(keysOf(m), m)
    ensures x in MapChanges(keysOf, base, cur, category, severity) <==> x.category == category && MapChanged(base, cur, severity, x)
  {
    DiffReports(base, cur, keysOf(base), keysOf(cur), category, severity);
    InReport(MapChanges(keysOf, base, cur, category, severity), base, cur, category, severity, x);
    KeyChanged(base, cur, category, severity, x);
  }

  lemma KeyChanged(base: Table, cur: Table, category: Category, severity: Severity, x: Change)
    ensures KeyChange(base, cur, category, severity, x.item) == Some(x)
       <==> x.category == category && MapChanged(base, cur, severity, x)
  {
  }

  lemma InReport(out: seq<Change>, base: Table, cur: Table, category: Category, severity: Severity, x: Change)
    requires Reports(out, base, cur, category, severity, base.Keys + cur.Keys)
    ensures x in out <==> KeyChange(base, cur, category, severity, x.item) == Some(x)
  {
  }

  lemma ListReported(base: seq<string>, cur: seq<string>, category: Category, severity: Severity, additionsOnly: bool, x: Change)
    ensures x in ListChanges(base, cur, category, severity, additionsOnly)
       <==> x.category == category && ListChanged(base, cur, severity, !additionsOnly, x)
  {
    MissingMeans(cur, base, category, Added, severity, x);
    MissingMeans(base, cur, category, Removed, Low, x);
  }

  lemma InHigh(keysOf: Walk, b: Baseline, c: Baseline, x: Change)
    ensures x in HighPart(keysOf, b, c)
       <==> || x in MapChanges(keysOf, b.suidSgid, c.suidSgid, SuidSgid, High)
            || x in ListChanges(b.kernelModules, c.kernelModules, KernelModule, High, true)
            || x in MapChanges(keysOf, b.authorizedKeys, c.authorizedKeys, AuthorizedKeys, High)
            || x in ListChanges(b.sudoers, c.sudoers, Sudoers, High, false)
  {
  }

  lemma InAll(keysOf: Walk, b: Baseline, c: Baseline, x: Change)
    ensures x in AllChanges(keysOf, b, c)
       <==> || x in HighPart(keysOf, b, c)
            || x in MapChanges(keysOf, b.listeners, c.listeners, Listener, Medium)
            || x in ListChanges(b.cronJobs, c.cronJobs, Cron, Medium, true)
            || x in ListChanges(b.systemdTimers, c.systemdTimers, SystemdTimer, Medium, true)
            || x in ListChanges(b.worldWritable, c.worldWritable, WorldWritable, Medium, true)
  {
  }

  /** A change is reported if and only if the baseline and the current state differ so in its
      category. */
  lemma ReportedExactly(keysOf: Walk, b: Baseline, c: Baseline, x: Change)
    requires forall m :: Lists(keysOf(m), m)
    ensures x in AllChanges(keysOf, b, c) <==> Changed(b, c, x)
  {
    InHigh(keysOf, b, c, x);
    InAll(keysOf, b, c, x);
    MapReported(keysOf, b.suidSgid, c.suidSgid, SuidSgid, High, x);
    ListReported(b.kernelModules, c.kernelModules, KernelModule, High, true, x);
    MapReported(keysOf, b.authorizedKeys, c.authorizedKeys, AuthorizedKeys, High, x);
    ListReported(b.sudoers, c.sudoers, Sudoers, High, false, x);
    MapReported(keysOf, b.listeners, c.listeners, Listener, Medium, x);
    ListReported(b.cronJobs, c.cronJobs, Cron, Medium, true, x);
    ListReported(b.systemdTimers, c.systemdTimers, SystemdTimer, Medium, true, x);
    ListReported(b.worldWritable, c.worldWritable, WorldWritable, Medium, true, x);
  }

  // ---- The count ---------------------------------------------------------------------------

  ghost function HighPlaces(changes: seq<Change>): set<nat> {
    set i: nat | i < |changes| && changes[i].severity == High
  }

  /** The count is the number of reported changes that are high. */
  lemma {:induction false} HighCountExactly(changes: seq<Change>)
    ensures HighCount(changes) == |HighPlaces(changes)|
  {
    if changes == [] {
      assert HighPlaces(changes) == {};
    } else {
      var n := |changes| - 1;
      HighCountExactly(changes[..n]);
      assert HighPlaces(changes) == HighPlaces(changes[..n]) + if changes[n].severity == High then {n} else {};
    }
  }
}
