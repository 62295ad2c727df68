/** Tamper monitoring: diffing the current surface against a sealed baseline
    (src/agent/integrity.rs). Maps are compared without regard to key order. */
module Integrity {
  import opened Sequences
  import opened Wrappers

  type Table = map<string, string>

  /** The order a table is walked in. */
  type Walk = Table -> seq<string>

  datatype Kind = Added | Modified | Removed

  datatype Severity = High | Medium | Low

  datatype Category = SuidSgid | KernelModule | AuthorizedKeys | Sudoers | Listener | Cron | SystemdTimer | WorldWritable

  datatype Change = Change(category: Category, kind: Kind, item: string, severity: Severity)

  datatype Baseline = Baseline(
    capturedAt: string, bootId: string, suidSgid: Table, listeners: Table,
    kernelModules: seq<string>, authorizedKeys: Table, sudoers: seq<string>,
    cronJobs: seq<string>, systemdTimers: seq<string>, worldWritable: seq<string>, digest: string)

  // ---- The seal ----------------------------------------------------------------------------

  function Digest(hash: Baseline -> string, b: Baseline): string {
    hash(Surface(b))
  }

  function Seal(hash: Baseline -> string, b: Baseline): Baseline {
    b.(digest := Digest(hash, b))
  }

  function Load(hash: Baseline -> string, stored: Option<Baseline>): Option<Baseline> {
    if stored.Some? && Digest(hash, stored.value) == stored.value.digest then stored else None
  }

  /** Everything but the digest and the capture time. */
  function Surface(b: Baseline): Baseline {
    b.(digest := "", capturedAt := "")
  }

  /** A stored baseline loads exactly when it carries its own digest. Under the digest of
      another baseline it loads exactly when the two differ in the capture time at most, if
      the hash tells them apart; so an alteration is noticed exactly when it is not sealed
      again, since sealing needs no secret. */
  lemma LoadsExactly(hash: Baseline -> string, b: Baseline, other: Baseline)
    requires hash(Surface(b)) == hash(Surface(other)) ==> Surface(b) == Surface(other)
    ensures Load(hash, Some(other)).Some? <==> other == Seal(hash, other)
    ensures Load(hash, Some(Seal(hash, other))) == Some(Seal(hash, other))
    ensures other.digest == Digest(hash, b) ==>
              (Load(hash, Some(other)).Some? <==> other == Seal(hash, b).(capturedAt := other.capturedAt))
    ensures Surface(other) != Surface(b) ==>
              (Load(hash, Some(other)).None? <==> other.digest != Digest(hash, other)) && Digest(hash, other) != Digest(hash, b)
  {
    assert Surface(Seal(hash, other)) == Surface(other) && Surface(Seal(hash, b)) == Surface(b);
    assert other == Surface(other).(digest := other.digest, capturedAt := other.capturedAt);
    assert Seal(hash, b).(capturedAt := other.capturedAt)
        == Surface(b).(digest := Digest(hash, b), capturedAt := other.capturedAt);
  }

  // ---- Diffing maps ----------------------------------------------------------------------------

  function Lookup(m: Table, k: string): Option<string> {
    if k in m then Some(m[k]) else None
  }

  /** The change a key calls for, if any. */
  function KeyChange(base: Table, cur: Table, category: Category, severity: Severity, k: string): Option<Change> {
    match (Lookup(base, k), Lookup(cur, k))
    case (None, Some(_)) => Some(Change(category, Added, k, severity))
    case (Some(was), Some(now)) => if was != now then Some(Change(category, Modified, k, severity)) else None
    case (Some(_), None) => Some(Change(category, Removed, k, Low))
    case (None, None) => None
  }

  /** `out` holds the change of each key of `keys` that has one, once, and nothing else. */
  ghost predicate Reports(out: seq<Change>, base: Table, cur: Table, category: Category, severity: Severity,
      keys: set<string>) {
    && (forall i, j :: 0 <= i < j < |out| ==> out[i].item != out[j].item)
    && (forall c :: c in out ==> c.item in keys && KeyChange(base, cur, category, severity, c.item) == Some(c))
    && (forall k :: k in keys && KeyChange(base, cur, category, severity, k).Some? ==>
          KeyChange(base, cur, category, severity, k).value in out)
  }

  lemma ReportsOneMore(out: seq<Change>, base: Table, cur: Table, category: Category, severity: Severity,
      keys: set<string>, k: string)
    requires Reports(out, base, cur, category, severity, keys) && k !in keys
    ensures var change := KeyChange(base, cur, category, severity, k);
            Reports(if change.Some? then out + [change.value] else out, base, cur, category, severity, keys + {k})
  {
  }

  /** The changes of some keys, in the order the keys are visited. */
  function ChangesOf(base: Table, cur: Table, category: Category, severity: Severity, order: seq<string>): seq<Change> {
    if order == [] then []
    else
      var change := KeyChange(base, cur, category, severity, order[|order| - 1]);
      ChangesOf(base, cur, category, severity, order[..|order| - 1]) + if change.Some? then [change.value] else []
  }

  lemma Visit(order: seq<string>, k: string)
    requires Distinct(order) && k !in order
    ensures Distinct(order + [k]) && Elements(order + [k]) == Elements(order) + {k}
  {
  }

  lemma VisitChange(before: seq<Change>, base: Table, cur: Table, category: Category, severity: Severity,
      order: seq<string>, k: string)
    ensures before + ChangesOf(base, cur, category, severity, order + [k])
         == (var change := KeyChange(base, cur, category, severity, k);
             before + ChangesOf(base, cur, category, severity, order) + if change.Some? then [change.value] else [])
  {
    assert (order + [k])[..|order|] == order;
  }

  lemma {:induction false} ReportsInOrder(base: Table, cur: Table, category: Category, severity: Severity,
      order: seq<string>)
    requires Distinct(order)
    ensures Reports(ChangesOf(base, cur, category, severity, order), base, cur, category, severity, Elements(order))
  {
    if order != [] {
      var before, k := order[..|order| - 1], order[|order| - 1];
      ReportsInOrder(base, cur, category, severity, before);
      ReportsOneMore(ChangesOf(base, cur, category, severity, before), base, cur, category, severity, Elements(before), k);
      assert order == before + [k];
      Visit(before, k);
    }
  }

  /** `keys` lists the keys of `m`, each once: the order a map is walked in. */
  ghost predicate Lists(keys: seq<string>, m: Table) {
    Distinct(keys) && Elements(keys) == m.Keys
  }

  /** The keys that are gone, in order. */
  function Gone(keys: seq<string>, cur: Table): seq<string> {
    if keys == [] then []
    else Gone(keys[..|keys| - 1], cur) + if keys[|keys| - 1] in cur then [] else [keys[|keys| - 1]]
  }

  lemma {:induction false} GoneMeans(keys: seq<string>, cur: Table)
    requires Distinct(keys)
    ensures Distinct(Gone(keys, cur)) && Elements(Gone(keys, cur)) == Elements(keys) - cur.Keys
  {
    if keys != [] {
      var before, k := keys[..|keys| - 1], keys[|keys| - 1];
      GoneMeans(before, cur);
      assert keys == before + [k];
      Visit(before, k);
      assert k !in Elements(Gone(before, cur));
      if k !in cur {
        Visit(Gone(before, cur), k);
      } else {
        assert Gone(before, cur) + [] == Gone(before, cur);
      }
    }
  }

  lemma GoneStep(curKeys: seq<string>, baseKeys: seq<string>, cur: Table, i: nat)
    requires i < |baseKeys|
    ensures curKeys + Gone(baseKeys[..i + 1], cur)
         == curKeys + Gone(baseKeys[..i], cur) + if baseKeys[i] in cur then [] else [baseKeys[i]]
  {
    assert baseKeys[..i + 1][..i] == baseKeys[..i];
  }

  /** Walks the current map, then the old one; the result has the changes of the
      two maps' keys, in that order. */
  method DiffMap(base: Table, cur: Table, baseKeys: seq<string>, curKeys: seq<string>,
      category: Category, severity: Severity, before: seq<Change>)
      returns (out: seq<Change>)
    requires Lists(baseKeys, base) && Lists(curKeys, cur)
    ensures out == before + ChangesOf(base, cur, category, severity, curKeys + Gone(baseKeys, cur))
  {
    out := before;
    for i := 0 to |curKeys|
      invariant out == before + ChangesOf(base, cur, category, severity, curKeys[..i])
    {
      var k := curKeys[i];
      assert k in Elements(curKeys);
      VisitChange(before, base, cur, category, severity, curKeys[..i], k);
      assert curKeys[..i + 1] == curKeys[..i] + [k];
      if k !in base {
        out := out + [Change(category, Added, k, severity)];
      } else if base[k] != cur[k] {
        out := out + [Change(category, Modified, k, severity)];
      }
    }
    assert curKeys[..|curKeys|] == curKeys;
    out := RemovedKeys(base, cur, baseKeys, category, severity, out, before, curKeys);
  }

  method RemovedKeys(base: Table, cur: Table, baseKeys: seq<string>,
      category: Category, severity: Severity, partial: seq<Change>, ghost before: seq<Change>, ghost curKeys: seq<string>)
      returns (out: seq<Change>)
    requires Lists(baseKeys, base)
    requires partial == before + ChangesOf(base, cur, category, severity, curKeys)
    ensures out == before + ChangesOf(base, cur, category, severity, curKeys + Gone(baseKeys, cur))
  {
    out := partial;
    ghost var order := curKeys;
    assert curKeys + Gone(baseKeys[..0], cur) == curKeys;
    for i := 0 to |baseKeys|
      invariant order == curKeys + Gone(baseKeys[..i], cur)
      invariant out == before + ChangesOf(base, cur, category, severity, order)
    {
      var k := baseKeys[i];
      assert k in Elements(baseKeys);
      GoneStep(curKeys, baseKeys, cur, i);
      if k !in cur {
        VisitChange(before, base, cur, category, severity, order, k);
        out, order := out + [Change(category, Removed, k, Low)], order + [k];
      }
    }
    assert baseKeys[..|baseKeys|] == baseKeys;
  }

  lemma DiffReports(base: Table, cur: Table, baseKeys: seq<string>, curKeys: seq<string>, category: Category,
      severity: Severity)
    requires Lists(baseKeys, base) && Lists(curKeys, cur)
    ensures var order := curKeys + Gone(baseKeys, cur);
            Reports(ChangesOf(base, cur, category, severity, order), base, cur, category, severity, base.Keys + cur.Keys)
  {
    var gone := Gone(baseKeys, cur);
    var order := curKeys + gone;
    GoneMeans(baseKeys, cur);
    assert Elements(order) == Elements(curKeys) + Elements(gone) == base.Keys + cur.Keys;
    forall i, j | 0 <= i < j < |order|
      ensures order[i] != order[j]
    {
      if i < |curKeys| <= j {
        assert order[i] in Elements(curKeys) && order[j] in Elements(gone);
      }
    }
    ReportsInOrder(base, cur, category, severity, order);
  }

  /** The keys reported in one way. */
  function Items(out: seq<Change>, kind: Kind): set<string> {
    set c | c in out && c.kind == kind :: c.item
  }

  /** A diff is exact: each key is mentioned at most once and exactly when its
      value differs, the added and removed keys turn the old key set into the new
      one, and an empty diff means equal maps. */
  lemma DiffIsExact(out: seq<Change>, base: Table, cur: Table, category: Category, severity: Severity)
    requires Reports(out, base, cur, category, severity, base.Keys + cur.Keys)
    ensures forall k :: (exists c :: c in out && c.item == k) <==> Lookup(base, k) != Lookup(cur, k)
    ensures (base.Keys - Items(out, Removed)) + Items(out, Added) == cur.Keys
    ensures Items(out, Removed) <= base.Keys && Items(out, Added) !! base.Keys
    ensures out == [] <==> base == cur
  {
    forall k
      ensures (exists c :: c in out && c.item == k) <==> Lookup(base, k) != Lookup(cur, k)
      ensures k in Items(out, Removed) <==> k in base && k !in cur
      ensures k in Items(out, Added) <==> k in cur && k !in base
    {
      var change := KeyChange(base, cur, category, severity, k);
      if change.Some? {
        assert change.value in out && change.value.item == k;
      }
    }
    if out != [] {
      assert out[0] in out;
    }
    if out == [] {
      assert forall k :: Lookup(base, k) == Lookup(cur, k);
      SameLookups(base, cur);
    }
  }

  lemma SameLookups(a: Table, b: Table)
    requires forall k :: Lookup(a, k) == Lookup(b, k)
    ensures a == b
  {
    forall k
      ensures k in a <==> k in b
      ensures k in a ==> a[k] == b[k]
    {
      assert Lookup(a, k) == Lookup(b, k);
    }
  }

  // ---- Diffing lists ---------------------------------------------------------------------------------

  /** A change for every occurrence in `from` of something not in `other`, in order. */
  function Missing(from: seq<string>, other: seq<string>, category: Category, kind: Kind,
      severity: Severity): seq<Change> {
    if from == [] then []
    else
      var last := from[|from| - 1];
      Missing(from[..|from| - 1], other, category, kind, severity)
      + (if last in other then [] else [Change(category, kind, last, severity)])
  }

  lemma {:induction false} MissingMeans(from: seq<string>, other: seq<string>, category: Category, kind: Kind,
      severity: Severity, c: Change)
    ensures c in Missing(from, other, category, kind, severity)
       <==> c.item in from && c.item !in other && c == Change(category, kind, c.item, severity)
  {
    if from != [] {
      MissingMeans(from[..|from| - 1], other, category, kind, severity, c);
      assert from == from[..|from| - 1] + [from[|from| - 1]];
    }
  }

  function ListChanges(base: seq<string>, cur: seq<string>, category: Category, severity: Severity,
      additionsOnly: bool): seq<Change> {
    Missing(cur, base, category, Added, severity)
    + if additionsOnly then [] else Missing(base, cur, category, Removed, Low)
  }

  method CollectMissing(from: seq<string>, other: seq<string>, category: Category, kind: Kind,
      severity: Severity, before: seq<Change>)
      returns (out: seq<Change>)
    ensures out == before + Missing(from, other, category, kind, severity)
  {
    out := before;
    for i := 0 to |from|
      invariant out == before + Missing(from[..i], other, category, kind, severity)
    {
      assert from[..i + 1][..i] == from[..i];
      if from[i] !in other {
        out := out + [Change(category, kind, from[i], severity)];
      }
    }
    assert from[..|from|] == from;
  }

  method DiffList(base: seq<string>, cur: seq<string>, category: Category, severity: Severity,
      additionsOnly: bool, before: seq<Change>)
      returns (out: seq<Change>)
    ensures out == before + ListChanges(base, cur, category, severity, additionsOnly)
  {
    out := CollectMissing(cur, base, category, Added, severity, before);
    if !additionsOnly {
      out := CollectMissing(base, cur, category, Removed, Low, out);
    }
  }

  // ---- The whole check -----------------------------------------------------------------------------------

  datatype Report = NoBaseline | Report(bootChanged: bool, changeCount: nat, high: nat, tampered: bool, changes: seq<Change>)

  function MapChanges(keysOf: Walk, base: Table, cur: Table, category: Category, severity: Severity): seq<Change> {
    ChangesOf(base, cur, category, severity, keysOf(cur) + Gone(keysOf(base), cur))
  }

  function HighPart(keysOf: Walk, b: Baseline, c: Baseline): seq<Change> {
    MapChanges(keysOf, b.suidSgid, c.suidSgid, SuidSgid, High)
    + ListChanges(b.kernelModules, c.kernelModules, KernelModule, High, true)
    + MapChanges(keysOf, b.authorizedKeys, c.authorizedKeys, AuthorizedKeys, High)
    + ListChanges(b.sudoers, c.sudoers, Sudoers, High, false)
  }

  /** All changes, the high-severity categories first. */
  function AllChanges(keysOf: Walk, b: Baseline, c: Baseline): seq<Change> {
    HighPart(keysOf, b, c)
    + MapChanges(keysOf, b.listeners, c.listeners, Listener, Medium)
    + ListChanges(b.cronJobs, c.cronJobs, Cron, Medium, true)
    + ListChanges(b.systemdTimers, c.systemdTimers, SystemdTimer, Medium, true)
    + ListChanges(b.worldWritable, c.worldWritable, WorldWritable, Medium, true)
  }

  function HighCount(changes: seq<Change>): nat {
    if changes == [] then 0
    else HighCount(changes[..|changes| - 1]) + if changes[|changes| - 1].severity == High then 1 else 0
  }

  method HighChanges(keysOf: Walk, b: Baseline, c: Baseline) returns (changes: seq<Change>)
    requires forall m :: Lists(keysOf(m), m)
    ensures changes == HighPart(keysOf, b, c)
  {
    changes := DiffMap(b.suidSgid, c.suidSgid, keysOf(b.suidSgid), keysOf(c.suidSgid), SuidSgid, High, []);
    assert changes == MapChanges(keysOf, b.suidSgid, c.suidSgid, SuidSgid, High);
    changes := DiffList(b.kernelModules, c.kernelModules, KernelModule, High, true, changes);
    changes := DiffMap(b.authorizedKeys, c.authorizedKeys, keysOf(b.authorizedKeys), keysOf(c.authorizedKeys),
                       AuthorizedKeys, High, changes);
    changes := DiffList(b.sudoers, c.sudoers, Sudoers, High, false, changes);
  }

  method Changes(keysOf: Walk, b: Baseline, c: Baseline) returns (changes: seq<Change>)
    requires forall m :: Lists(keysOf(m), m)
    ensures changes == AllChanges(keysOf, b, c)
  {
    changes := HighChanges(keysOf, b, c);
    changes := DiffMap(b.listeners, c.listeners, keysOf(b.listeners), keysOf(c.listeners), Listener, Medium, changes);
    changes := DiffList(b.cronJobs, c.cronJobs, Cron, Medium, true, changes);
    changes := DiffList(b.systemdTimers, c.systemdTimers, SystemdTimer, Medium, true, changes);
    changes := DiffList(b.worldWritable, c.worldWritable, WorldWritable, Medium, true, changes);
  }

  /** `keysOf` is the order maps are walked in; `stored` is what the baseline file
      holds, if it parses. */
  method Check(hash: Baseline -> string, keysOf: Walk, stored: Option<Baseline>, current: Baseline)
      returns (report: Report)
    requires forall m :: Lists(keysOf(m), m)
    ensures report.NoBaseline? <==> Load(hash, stored).None?
    ensures report.Report? ==>
              && report.changes == AllChanges(keysOf, stored.value, current)
              && report.changeCount == |report.changes|
              && report.high == HighCount(report.changes)
              && report.tampered == Tampered(stored.value, current)
              && report.bootChanged == (stored.value.bootId != "" && stored.value.bootId != current.bootId)
  {
    var loaded := Load(hash, stored);
    if loaded.None? {
      return NoBaseline;
    }
    var b := loaded.value;
    var changes := Changes(keysOf, b, current);
    TamperedExactly(keysOf, b, current);
    var high := HighCount(changes);
    report := Report(b.bootId != "" && b.bootId != current.bootId, |changes|, high, high > 0, changes);
  }

  // ---- What an alarm means -----------------------------------------------------------------------------------

  /** Some present key is new or has another value. */
  ghost predicate MapAlarm(base: Table, cur: Table) {
    exists k :: k in cur && Lookup(base, k) != Some(cur[k])
  }

  ghost predicate ListAlarm(base: seq<string>, cur: seq<string>) {
    exists x :: x in cur && x !in base
  }

  /** The surface has gained or altered something that gives privilege or
      persistence; a removal alone never counts. */
  ghost predicate Tampered(b: Baseline, c: Baseline) {
    || MapAlarm(b.suidSgid, c.suidSgid) || ListAlarm(b.kernelModules, c.kernelModules)
    || MapAlarm(b.authorizedKeys, c.authorizedKeys) || ListAlarm(b.sudoers, c.sudoers)
  }

  ghost predicate Raises(changes: seq<Change>) {
    exists c :: c in changes && c.severity == High
  }

  lemma {:induction false} HighCountMeans(changes: seq<Change>)
    ensures HighCount(changes) > 0 <==> Raises(changes)
  {
    if changes != [] {
      var n := |changes| - 1;
      HighCountMeans(changes[..n]);
      assert changes == changes[..n] + [changes[n]];
    }
  }

  lemma RaisesConcat(a: seq<Change>, b: seq<Change>)
    ensures Raises(a + b) <==> Raises(a) || Raises(b)
  {
    forall c
      ensures c in a + b <==> c in a || c in b
    {
    }
  }

  lemma AlarmIsReported(out: seq<Change>, base: Table, cur: Table, category: Category)
    requires Reports(out, base, cur, category, High, base.Keys + cur.Keys) && MapAlarm(base, cur)
    ensures Raises(out)
  {
    var k :| k in cur && Lookup(base, k) != Some(cur[k]);
    var change := KeyChange(base, cur, category, High, k);
    assert change.Some? && change.value.severity == High;
    assert k in base.Keys + cur.Keys;
  }

  lemma ReportIsAlarm(out: seq<Change>, base: Table, cur: Table, category: Category, severity: Severity)
    requires Reports(out, base, cur, category, severity, base.Keys + cur.Keys) && Raises(out)
    ensures severity == High && MapAlarm(base, cur)
  {
    var c :| c in out && c.severity == High;
    assert KeyChange(base, cur, category, severity, c.item) == Some(c);
    assert c.item in cur;
  }

  lemma ReportsRaise(out: seq<Change>, base: Table, cur: Table, category: Category, severity: Severity)
    requires Reports(out, base, cur, category, severity, base.Keys + cur.Keys)
    ensures Raises(out) <==> severity == High && MapAlarm(base, cur)
  {
    if severity == High && MapAlarm(base, cur) {
      AlarmIsReported(out, base, cur, category);
    }
    if Raises(out) {
      ReportIsAlarm(out, base, cur, category, severity);
    }
  }

  lemma MapRaises(keysOf: Walk, base: Table, cur: Table, category: Category, severity: Severity)
    requires forall m :: Lists(keysOf(m), m)
    ensures Raises(MapChanges(keysOf, base, cur, category, severity)) <==> severity == High && MapAlarm(base, cur)
  {
    DiffReports(base, cur, keysOf(base), keysOf(cur), category, severity);
    ReportsRaise(MapChanges(keysOf, base, cur, category, severity), base, cur, category, severity);
  }

  lemma ListRaises(base: seq<string>, cur: seq<string>, category: Category, severity: Severity, additionsOnly: bool)
    ensures Raises(ListChanges(base, cur, category, severity, additionsOnly)) <==> severity == High && ListAlarm(base, cur)
  {
    var added, removed := Missing(cur, base, category, Added, severity), Missing(base, cur, category, Removed, Low);
    RaisesConcat(added, if additionsOnly then [] else removed);
    forall c
      ensures c in added <==> c.item in cur && c.item !in base && c == Change(category, Added, c.item, severity)
      ensures c in removed ==> c.severity == Low
    {
      MissingMeans(cur, base, category, Added, severity, c);
      MissingMeans(base, cur, category, Removed, Low, c);
    }
    if severity == High && ListAlarm(base, cur) {
      var x :| x in cur && x !in base;
      assert Change(category, Added, x, severity) in added;
    }
  }

  lemma FourRaise(a: seq<Change>, b: seq<Change>, c: seq<Change>, d: seq<Change>)
    ensures Raises(a + b + c + d) <==> Raises(a) || Raises(b) || Raises(c) || Raises(d)
  {
    RaisesConcat(a, b);
    RaisesConcat(a + b, c);
    RaisesConcat(a + b + c, d);
  }

  lemma HighRaises(keysOf: Walk, b: Baseline, c: Baseline)
    requires forall m :: Lists(keysOf(m), m)
    ensures Raises(HighPart(keysOf, b, c)) <==> Tampered(b, c)
  {
    MapRaises(keysOf, b.suidSgid, c.suidSgid, SuidSgid, High);
    ListRaises(b.kernelModules, c.kernelModules, KernelModule, High, true);
    MapRaises(keysOf, b.authorizedKeys, c.authorizedKeys, AuthorizedKeys, High);
    ListRaises(b.sudoers, c.sudoers, Sudoers, High, false);
    FourRaise(MapChanges(keysOf, b.suidSgid, c.suidSgid, SuidSgid, High),
              ListChanges(b.kernelModules, c.kernelModules, KernelModule, High, true),
              MapChanges(keysOf, b.authorizedKeys, c.authorizedKeys, AuthorizedKeys, High),
              ListChanges(b.sudoers, c.sudoers, Sudoers, High, false));
  }

  /** The number of high-severity changes is positive exactly on tampering. */
  lemma TamperedExactly(keysOf: Walk, b: Baseline, c: Baseline)
    requires forall m :: Lists(keysOf(m), m)
    ensures HighCount(AllChanges(keysOf, b, c)) > 0 <==> Tampered(b, c)
  {
    HighRaises(keysOf, b, c);
    MapRaises(keysOf, b.listeners, c.listeners, Listener, Medium);
    ListRaises(b.cronJobs, c.cronJobs, Cron, Medium, true);
    ListRaises(b.systemdTimers, c.systemdTimers, SystemdTimer, Medium, true);
    ListRaises(b.worldWritable, c.worldWritable, WorldWritable, Medium, true);
    var front := HighPart(keysOf, b, c) + MapChanges(keysOf, b.listeners, c.listeners, Listener, Medium);
    RaisesConcat(HighPart(keysOf, b, c), MapChanges(keysOf, b.listeners, c.listeners, Listener, Medium));
    FourRaise(front, ListChanges(b.cronJobs, c.cronJobs, Cron, Medium, true),
              ListChanges(b.systemdTimers, c.systemdTimers, SystemdTimer, Medium, true),
              ListChanges(b.worldWritable, c.worldWritable, WorldWritable, Medium, true));
    HighCountMeans(AllChanges(keysOf, b, c));
  }

  // ---- What silence means -----------------------------------------------------------------------------------------

  lemma MapQuiet(keysOf: Walk, base: Table, cur: Table, category: Category, severity: Severity)
    requires forall m :: Lists(keysOf(m), m)
    ensures MapChanges(keysOf, base, cur, category, severity) == [] <==> base == cur
  {
    DiffReports(base, cur, keysOf(base), keysOf(cur), category, severity);
    DiffIsExact(MapChanges(keysOf, base, cur, category, severity), base, cur, category, severity);
  }

  lemma {:induction false} MissingNone(from: seq<string>, other: seq<string>, category: Category, kind: Kind,
      severity: Severity)
    ensures Missing(from, other, category, kind, severity) == [] <==> forall x :: x in from ==> x in other
  {
    if from != [] {
      var n := |from| - 1;
      MissingNone(from[..n], other, category, kind, severity);
      assert from == from[..n] + [from[n]];
    }
  }

  lemma ListQuiet(base: seq<string>, cur: seq<string>, category: Category, severity: Severity)
    ensures ListChanges(base, cur, category, severity, true) == [] <==> !ListAlarm(base, cur)
    ensures ListChanges(base, cur, category, severity, false) == [] <==> forall x :: x in base <==> x in cur
  {
    MissingNone(cur, base, category, Added, severity);
    MissingNone(base, cur, category, Removed, Low);
  }

  lemma FourEmpty(a: seq<Change>, b: seq<Change>, c: seq<Change>, d: seq<Change>)
    ensures a + b + c + d == [] <==> a == [] && b == [] && c == [] && d == []
  {
    assert |a + b + c + d| == |a| + |b| + |c| + |d|;
  }

  lemma HighQuiet(keysOf: Walk, b: Baseline, c: Baseline)
    requires forall m :: Lists(keysOf(m), m)
    ensures HighPart(keysOf, b, c) == []
       <==> && b.suidSgid == c.suidSgid && !ListAlarm(b.kernelModules, c.kernelModules)
            && b.authorizedKeys == c.authorizedKeys && (forall x :: x in b.sudoers <==> x in c.sudoers)
  {
    MapQuiet(keysOf, b.suidSgid, c.suidSgid, SuidSgid, High);
    ListQuiet(b.kernelModules, c.kernelModules, KernelModule, High);
    MapQuiet(keysOf, b.authorizedKeys, c.authorizedKeys, AuthorizedKeys, High);
    ListQuiet(b.sudoers, c.sudoers, Sudoers, High);
    FourEmpty(MapChanges(keysOf, b.suidSgid, c.suidSgid, SuidSgid, High),
              ListChanges(b.kernelModules, c.kernelModules, KernelModule, High, true),
              MapChanges(keysOf, b.authorizedKeys, c.authorizedKeys, AuthorizedKeys, High),
              ListChanges(b.sudoers, c.sudoers, Sudoers, High, false));
  }

  /** No change is reported exactly when the three maps are equal, the sudoers
      entries are the same set, and the other lists have gained nothing. */
  lemma QuietExactly(keysOf: Walk, b: Baseline, c: Baseline)
    requires forall m :: Lists(keysOf(m), m)
    ensures AllChanges(keysOf, b, c) == []
       <==> && b.suidSgid == c.suidSgid && !ListAlarm(b.kernelModules, c.kernelModules)
            && b.authorizedKeys == c.authorizedKeys && (forall x :: x in b.sudoers <==> x in c.sudoers)
            && b.listeners == c.listeners && !ListAlarm(b.cronJobs, c.cronJobs)
            && !ListAlarm(b.systemdTimers, c.systemdTimers) && !ListAlarm(b.worldWritable, c.worldWritable)
  {
    HighQuiet(keysOf, b, c);
    MapQuiet(keysOf, b.listeners, c.listeners, Listener, Medium);
    ListQuiet(b.cronJobs, c.cronJobs, Cron, Medium);
    ListQuiet(b.systemdTimers, c.systemdTimers, SystemdTimer, Medium);
    ListQuiet(b.worldWritable, c.worldWritable, WorldWritable, Medium);
    var listeners := MapChanges(keysOf, b.listeners, c.listeners, Listener, Medium);
    FourEmpty(HighPart(keysOf, b, c) + listeners, ListChanges(b.cronJobs, c.cronJobs, Cron, Medium, true),
              ListChanges(b.systemdTimers, c.systemdTimers, SystemdTimer, Medium, true),
              ListChanges(b.worldWritable, c.worldWritable, WorldWritable, Medium, true));
    assert |HighPart(keysOf, b, c) + listeners| == |HighPart(keysOf, b, c)| + |listeners|;
  }
}
