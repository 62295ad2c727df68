/** Ids and references in the QEMU command line. */
module QemuIds {
  import opened Wrappers
  import opened Text
  import opened VmDefinition
  import opened QemuArgs
  import opened QemuArgsTheorems

  /** The ids an option declares. */
  function Declares(o: Opt): set<string> {
    if o.Listed? then set p | p in o.props && p.0 == "id" :: p.1 else {}
  }

  /** The id a property refers to; a bus is named by its controller's id and a number. */
  function Reference(p: (string, string)): Option<string> {
    if p.0 == "drive" || p.0 == "netdev" || p.0 == "rng" then Some(p.1)
    else if p.0 == "bus" then Some(SplitOnce(p.1, '.').0)
    else None
  }

  ghost predicate Refers(o: Opt, id: string) {
    o.Listed? && exists k :: 0 <= k < |o.props| && Reference(o.props[k]) == Some(id)
  }

  ghost predicate RefersWithin(o: Opt, known: set<string>) {
    o.Listed? ==> forall k :: 0 <= k < |o.props| ==> Reference(o.props[k]).Some? ==> Reference(o.props[k]).value in known
  }

  ghost predicate IdsDistinct(opts: seq<Opt>) {
    forall i, j :: 0 <= i < j < |opts| ==> Declares(opts[i]) !! Declares(opts[j])
  }

  /** Every reference names an id declared by an earlier option. */
  ghost predicate RefersBack(opts: seq<Opt>) {
    forall i, id :: 0 <= i < |opts| && Refers(opts[i], id) ==> exists j :: 0 <= j < i && id in Declares(opts[j])
  }

  // ---- One pass over the options -------------------------------------------

  /** The ids declared after `opts`, or nothing when one is reused or a reference is unknown. */
  ghost function Scan(opts: seq<Opt>, known: set<string>): Option<set<string>> {
    if opts == [] then Some(known)
    else if RefersWithin(opts[0], known) && Declares(opts[0]) !! known then Scan(opts[1..], known + Declares(opts[0]))
    else None
  }

  lemma {:induction false} ScanAppend(a: seq<Opt>, b: seq<Opt>, known: set<string>)
    requires Scan(a, known).Some?
    ensures Scan(a + b, known) == Scan(b, Scan(a, known).value)
  {
    if a == [] {
      assert a + b == b;
    } else {
      ScanAppend(a[1..], b, known + Declares(a[0]));
      assert (a + b)[1..] == a[1..] + b;
    }
  }

  lemma {:induction false} ScanSound(opts: seq<Opt>, known: set<string>)
    requires Scan(opts, known).Some?
    ensures forall i :: 0 <= i < |opts| ==> Declares(opts[i]) !! known
    ensures IdsDistinct(opts)
    ensures forall i, id :: 0 <= i < |opts| && Refers(opts[i], id) ==>
              id in known || exists j :: 0 <= j < i && id in Declares(opts[j])
  {
    if opts != [] {
      var rest := opts[1..];
      ScanSound(rest, known + Declares(opts[0]));
      assert forall i :: 1 <= i < |opts| ==> opts[i] == rest[i - 1];
      forall i, id | 0 <= i < |opts| && Refers(opts[i], id)
        ensures id in known || exists j :: 0 <= j < i && id in Declares(opts[j])
      {
        if i > 0 && id !in known {
          if id in Declares(opts[0]) {
            assert id in Declares(opts[0]);
          } else {
            var j :| 0 <= j < i - 1 && id in Declares(rest[j]);
            assert id in Declares(opts[j + 1]);
          }
        }
      }
      forall i, j | 0 <= i < j < |opts|
        ensures Declares(opts[i]) !! Declares(opts[j])
      {
        assert opts[j] == rest[j - 1];
        if i == 0 {
          assert Declares(rest[j - 1]) !! (known + Declares(opts[0]));
        }
      }
    }
  }

  // ---- The sections ---------------------------------------------------------

  lemma {:induction false} ScanNeutral(opts: seq<Opt>, known: set<string>)
    requires forall o :: o in opts ==> Declares(o) == {} && RefersWithin(o, {})
    ensures Scan(opts, known) == Some(known)
  {
    if opts != [] {
      assert Declares(opts[0]) == {} && known + {} == known;
      ScanNeutral(opts[1..], known);
    }
  }

  lemma BaseNeutral(d: Definition, t: Texts, daemonize: bool, o: Opt)
    requires o in BaseOpts(d, t.qmp, t.pid, daemonize)
    ensures Declares(o) == {} && RefersWithin(o, {})
  {
  }

  lemma UefiNeutral(t: Texts, o: Opt)
    requires o in UefiOpts(t.uefi)
    ensures Declares(o) == {} && RefersWithin(o, {})
  {
  }

  /** Accepts `o` next and records what it declares. */
  ghost predicate Fits(o: Opt, known: set<string>, id: string, after: set<string>) {
    Declares(o) == {id} && RefersWithin(o, known) && id !in known && after == known + {id}
  }

  lemma ScanOne(opts: seq<Opt>, known: set<string>, o: Opt, id: string, after: set<string>)
    requires Scan(opts, {}) == Some(known) && Fits(o, known, id, after)
    ensures Scan(opts + [o], {}) == Some(after)
  {
    ScanAppend(opts, [o], {});
    assert [o][1..] == [];
    assert Scan([o], known) == Scan([], known + Declares(o));
  }

  lemma DiskSets(d: Definition, t: Texts)
    ensures Declares(DiskOpt(d, t.image)) == {"gk_disk0"} && RefersWithin(DiskOpt(d, t.image), {})
  {
    assert DiskOpt(d, t.image).props[0] == ("id", "gk_disk0");
  }

  ghost predicate Resolves(p: (string, string), known: set<string>) {
    Reference(p).Some? ==> Reference(p).value in known
  }

  lemma IdAlone(o: Opt, id: string)
    requires o.Listed? && o.props == [("id", id)]
    ensures Declares(o) == {id} && RefersWithin(o, {})
  {
    assert o.props[0] == ("id", id);
  }

  lemma IdSecond(o: Opt, p: (string, string), id: string, known: set<string>)
    requires o.Listed? && o.props == [p, ("id", id)] && p.0 != "id" && Resolves(p, known)
    ensures Declares(o) == {id} && RefersWithin(o, known)
  {
    assert o.props[1] == ("id", id);
  }

  lemma IdThird(o: Opt, p: (string, string), q: (string, string), id: string, known: set<string>)
    requires o.Listed? && o.props == [p, q, ("id", id)] && p.0 != "id" && q.0 != "id"
    requires Resolves(p, known) && Resolves(q, known)
    ensures Declares(o) == {id} && RefersWithin(o, known)
  {
    assert o.props[2] == ("id", id);
  }

  lemma IdFirst(o: Opt, id: string)
    requires o.Listed? && o.props != [] && o.props[0] == ("id", id)
    requires forall k :: 1 <= k < |o.props| ==> o.props[k].0 != "id" && Reference(o.props[k]).None?
    ensures Declares(o) == {id} && RefersWithin(o, {})
  {
  }

  lemma BusName()
    ensures Reference(("bus", "gk_scsi0.0")) == Some("gk_scsi0")
  {
    SplitOnceJoined("gk_scsi0", "0", '.');
    assert "gk_scsi0" + ['.'] + "0" == "gk_scsi0.0";
  }

  /** The ids of the disk's bus options. */
  ghost function BusIds(d: Definition): set<string> {
    {"gk_disk0"} + if d.diskBus.VirtioBlk? then {"gk_vblk0"} else {"gk_scsi0", "gk_scsi_disk0"}
  }

  lemma ScanBlk(opts: seq<Opt>, d: Definition)
    requires Scan(opts, {}) == Some({"gk_disk0"}) && d.diskBus.VirtioBlk?
    ensures Scan(opts + BusOpts(d), {}) == Some(BusIds(d))
  {
    var bus := BusOpts(d);
    IdSecond(bus[0], ("drive", "gk_disk0"), "gk_vblk0", {"gk_disk0"});
    ScanOne(opts, {"gk_disk0"}, bus[0], "gk_vblk0", BusIds(d));
    assert bus == [bus[0]];
  }

  lemma ScsiDiskDeclares(d: Definition)
    requires d.diskBus.VirtioScsi?
    ensures Declares(BusOpts(d)[1]) == {"gk_scsi_disk0"} && RefersWithin(BusOpts(d)[1], {"gk_disk0", "gk_scsi0"})
  {
    BusName();
    IdThird(BusOpts(d)[1], ("drive", "gk_disk0"), ("bus", "gk_scsi0.0"), "gk_scsi_disk0", {"gk_disk0", "gk_scsi0"});
  }

  lemma ScanScsi(opts: seq<Opt>, d: Definition)
    requires Scan(opts, {}) == Some({"gk_disk0"}) && d.diskBus.VirtioScsi?
    ensures Scan(opts + BusOpts(d), {}) == Some(BusIds(d))
  {
    var bus, known := BusOpts(d), {"gk_disk0", "gk_scsi0"};
    IdAlone(bus[0], "gk_scsi0");
    ScanOne(opts, {"gk_disk0"}, bus[0], "gk_scsi0", known);
    ScsiDiskDeclares(d);
    ScanOne(opts + [bus[0]], known, bus[1], "gk_scsi_disk0", BusIds(d));
    assert opts + bus == opts + [bus[0]] + [bus[1]];
  }

  ghost function NetworkIds(d: Definition): set<string> {
    BusIds(d) + if d.network.NoNetwork? then {} else {"gk_net0", "gk_nic0"}
  }

  lemma NetdevDeclares(d: Definition)
    requires !d.network.NoNetwork?
    ensures Declares(NetworkOpts(d)[0]) == {"gk_net0"} && RefersWithin(NetworkOpts(d)[0], {})
  {
    IdFirst(NetworkOpts(d)[0], "gk_net0");
  }

  lemma ScanNetwork(opts: seq<Opt>, d: Definition)
    requires Scan(opts, {}) == Some(BusIds(d))
    ensures Scan(opts + NetworkOpts(d), {}) == Some(NetworkIds(d))
  {
    var net := NetworkOpts(d);
    if d.network.NoNetwork? {
      assert opts + net == opts && NetworkIds(d) == BusIds(d);
    } else {
      NetdevDeclares(d);
      ScanOne(opts, BusIds(d), net[0], "gk_net0", BusIds(d) + {"gk_net0"});
      IdSecond(net[1], ("netdev", "gk_net0"), "gk_nic0", BusIds(d) + {"gk_net0"});
      ScanOne(opts + [net[0]], BusIds(d) + {"gk_net0"}, net[1], "gk_nic0", NetworkIds(d));
      assert opts + net == opts + [net[0]] + [net[1]];
    }
  }

  lemma RngBackendDeclares(d: Definition)
    ensures Declares(TailOpts(d)[1]) == {"gk_rng_backend0"} && RefersWithin(TailOpts(d)[1], {})
  {
    IdFirst(TailOpts(d)[1], "gk_rng_backend0");
  }

  /** The ids known once the random-number device is declared. */
  ghost function RngIds(d: Definition): set<string> {
    NetworkIds(d) + {"gk_balloon0", "gk_rng_backend0", "gk_rng0"}
  }

  lemma ScanBalloon(opts: seq<Opt>, d: Definition)
    requires Scan(opts, {}) == Some(NetworkIds(d))
    ensures Scan(opts + [TailOpts(d)[0]], {}) == Some(NetworkIds(d) + {"gk_balloon0"})
  {
    IdAlone(TailOpts(d)[0], "gk_balloon0");
    ScanOne(opts, NetworkIds(d), TailOpts(d)[0], "gk_balloon0", NetworkIds(d) + {"gk_balloon0"});
  }

  lemma ScanRng(opts: seq<Opt>, d: Definition)
    requires Scan(opts, {}) == Some(NetworkIds(d) + {"gk_balloon0"})
    ensures Scan(opts + [TailOpts(d)[1]] + [TailOpts(d)[2]], {}) == Some(RngIds(d))
  {
    var tail, known := TailOpts(d), NetworkIds(d) + {"gk_balloon0"};
    RngBackendDeclares(d);
    ScanOne(opts, known, tail[1], "gk_rng_backend0", known + {"gk_rng_backend0"});
    IdSecond(tail[2], ("rng", "gk_rng_backend0"), "gk_rng0", known + {"gk_rng_backend0"});
    ScanOne(opts + [tail[1]], known + {"gk_rng_backend0"}, tail[2], "gk_rng0", RngIds(d));
  }

  lemma ScanVsock(opts: seq<Opt>, d: Definition)
    requires Scan(opts, {}) == Some(RngIds(d)) && d.vsockCid.Some?
    ensures Scan(opts + [TailOpts(d)[3]], {}).Some?
  {
    IdSecond(TailOpts(d)[3], ("guest-cid", Decimal(d.vsockCid.value)), "gk_vsock0", RngIds(d));
    ScanOne(opts, RngIds(d), TailOpts(d)[3], "gk_vsock0", RngIds(d) + {"gk_vsock0"});
  }

  lemma ScanTail(opts: seq<Opt>, d: Definition)
    requires Scan(opts, {}) == Some(NetworkIds(d))
    ensures Scan(opts + TailOpts(d), {}).Some?
  {
    var tail := TailOpts(d);
    ScanBalloon(opts, d);
    ScanRng(opts + [tail[0]], d);
    var three := opts + [tail[0]] + [tail[1]] + [tail[2]];
    if d.vsockCid.Some? {
      ScanVsock(three, d);
      assert opts + tail == three + [tail[3]];
    } else {
      assert opts + tail == three;
    }
  }

  /** In every command line: ids are pairwise distinct, and every drive, netdev,
      rng and bus reference names an id declared earlier on the line. */
  lemma OptionsWellFormed(d: Definition, t: Texts, daemonize: bool)
    ensures IdsDistinct(Options(d, t, daemonize))
    ensures RefersBack(Options(d, t, daemonize))
  {
    var front := BaseOpts(d, t.qmp, t.pid, daemonize) + UefiOpts(t.uefi);
    forall o | o in front ensures Declares(o) == {} && RefersWithin(o, {}) {
      if o in UefiOpts(t.uefi) { UefiNeutral(t, o); } else { BaseNeutral(d, t, daemonize, o); }
    }
    ScanNeutral(front, {});
    DiskSets(d, t);
    var disk := front + [DiskOpt(d, t.image)];
    ScanOne(front, {}, DiskOpt(d, t.image), "gk_disk0", {"gk_disk0"});
    if d.diskBus.VirtioBlk? { ScanBlk(disk, d); } else { ScanScsi(disk, d); }
    ScanNetwork(disk + BusOpts(d), d);
    ScanTail(disk + BusOpts(d) + NetworkOpts(d), d);
    ScanSound(Options(d, t, daemonize), {});
  }

  /** The same, for the options as QEMU reads them from the argument list. */
  lemma ReadOptionsWellFormed(d: Definition, qmp: Path, pid: Path, daemonize: bool, present: set<Path>)
    requires Buildable(d, qmp, pid, present) && ListedPathsCommaFree(TextsOf(d, qmp, pid))
    ensures var read := ReadArgs(RenderAll(Options(d, TextsOf(d, qmp, pid), daemonize)));
            read.Some? && IdsDistinct(read.value) && RefersBack(read.value)
  {
    OptionsReadBack(d, qmp, pid, daemonize, present);
    OptionsWellFormed(d, TextsOf(d, qmp, pid), daemonize);
  }
}
