/** The QEMU command line (`build_qemu_args` in src/vm.rs): building it,
    reading its option strings back, and its ids and references. */
module QemuArgs {
  import opened Sequences
  import opened Wrappers
  import opened Text
  import opened VmDefinition

  function Machine(a: Architecture): string { match a case X86_64 => "q35" case Aarch64 => "virt" }
  function Bus(a: Architecture): string { match a case X86_64 => "-pci" case Aarch64 => "-device" }

  function QemuBinary(a: Architecture): string {
    match a case X86_64 => "qemu-system-x86_64" case Aarch64 => "qemu-system-aarch64"
  }

  function FormatName(f: ImageFormat): string {
    match f case Qcow2 => "qcow2" case Raw => "raw" case Vmdk => "vmdk" case Vdi => "vdi" case Vhd => "vpc"
  }

  /** One option: a switch, a switch with a plain value, or a switch whose
      value is a comma-separated list, possibly led by an item without a key. */
  datatype Opt =
    | Flag(name: string)
    | Valued(name: string, value: string)
    | Listed(name: string, head: Option<string>, props: seq<(string, string)>)

  // ---- Building -----------------------------------------------------------

  function Items(props: seq<(string, string)>): (r: seq<string>)
    ensures |r| == |props| && forall i :: 0 <= i < |props| ==> r[i] == props[i].0 + "=" + props[i].1
  {
    seq(|props|, i requires 0 <= i < |props| => props[i].0 + "=" + props[i].1)
  }

  function Parts(head: Option<string>, props: seq<(string, string)>): seq<string> {
    (if head.Some? then [head.value] else []) + Items(props)
  }

  function Render(o: Opt): seq<string> {
    match o
    case Flag(name) => [name]
    case Valued(name, value) => [name, value]
    case Listed(name, head, props) => [name, Join(Parts(head, props), ',')]
  }

  function RenderAll(opts: seq<Opt>): seq<string> {
    if opts == [] then [] else Render(opts[0]) + RenderAll(opts[1..])
  }

  function Device(model: string, props: seq<(string, string)>): Opt {
    Listed("-device", Some(model), props)
  }

  function Drive(props: seq<(string, string)>): Opt {
    Listed("-drive", None, props)
  }

  function UefiOpts(uefi: Option<(string, string)>): seq<Opt> {
    match uefi
    case None => []
    case Some((code, vars)) =>
      [Drive([("if", "pflash"), ("format", "raw"), ("readonly", "on"), ("file", code)]),
       Drive([("if", "pflash"), ("format", "raw"), ("file", vars)])]
  }

  function DiskOpt(d: Definition, image: string): Opt {
    Drive([("id", "gk_disk0"), ("file", image), ("format", FormatName(d.imageFormat)), ("if", "none"), ("cache", "none")]
          + if d.readonly then [("readonly", "on")] else [])
  }

  function BusOpts(d: Definition): seq<Opt> {
    match d.diskBus
    case VirtioBlk => [Device("virtio-blk" + Bus(d.architecture), [("drive", "gk_disk0"), ("id", "gk_vblk0")])]
    case VirtioScsi =>
      [Device("virtio-scsi" + Bus(d.architecture), [("id", "gk_scsi0")]),
       Device("scsi-hd", [("drive", "gk_disk0"), ("bus", "gk_scsi0.0"), ("id", "gk_scsi_disk0")])]
  }

  function Nic(d: Definition): Opt {
    Device("virtio-net" + Bus(d.architecture), [("netdev", "gk_net0"), ("id", "gk_nic0")])
  }

  function NetworkOpts(d: Definition): seq<Opt> {
    match d.network
    case NoNetwork => []
    case User(port) =>
      var forward := if port.Some? then [("hostfwd", "tcp:127.0.0.1:" + Decimal(port.value) + "-:22")] else [];
      [Listed("-netdev", Some("user"), [("id", "gk_net0")] + forward), Nic(d)]
    case Tap(ifname, vhost) =>
      [Listed("-netdev", Some("tap"), [("id", "gk_net0"), ("ifname", ifname), ("script", "no"), ("downscript", "no"),
                                       ("vhost", if vhost then "on" else "off")]), Nic(d)]
  }

  function BaseOpts(d: Definition, qmp: string, pid: string, daemonize: bool): seq<Opt> {
    [Valued("-name", d.name), Listed("-machine", Some(Machine(d.architecture)), [("accel", "kvm")]),
     Valued("-cpu", "host"), Valued("-smp", Decimal(d.vcpus)), Valued("-m", Decimal(d.memoryMb)),
     Listed("-qmp", Some("unix:" + qmp), [("server", "on"), ("wait", "off")]),
     Valued("-pidfile", pid), Valued("-display", "none")]
    + if daemonize then [Flag("-daemonize")] else []
  }

  function TailOpts(d: Definition): seq<Opt> {
    [Device("virtio-balloon" + Bus(d.architecture), [("id", "gk_balloon0")]),
     Listed("-object", Some("rng-random"), [("id", "gk_rng_backend0"), ("filename", "/dev/urandom")]),
     Device("virtio-rng" + Bus(d.architecture), [("rng", "gk_rng_backend0"), ("id", "gk_rng0")])]
    + if d.vsockCid.Some? then
        [Device("vhost-vsock" + Bus(d.architecture), [("guest-cid", Decimal(d.vsockCid.value)), ("id", "gk_vsock0")])]
      else []
  }

  /** The paths of a build as text, when all are UTF-8. */
  datatype Texts = Texts(qmp: string, pid: string, image: string, uefi: Option<(string, string)>)

  function Options(d: Definition, t: Texts, daemonize: bool): seq<Opt> {
    BaseOpts(d, t.qmp, t.pid, daemonize) + UefiOpts(t.uefi) + [DiskOpt(d, t.image)] + BusOpts(d) + NetworkOpts(d) + TailOpts(d)
  }

  predicate PathsAreText(d: Definition, qmp: Path, pid: Path) {
    qmp.Utf8? && pid.Utf8? && d.image.Utf8? && (d.uefi.Some? ==> d.uefi.value.code.Utf8? && d.uefi.value.vars.Utf8?)
  }

  function TextsOf(d: Definition, qmp: Path, pid: Path): Texts
    requires PathsAreText(d, qmp, pid)
  {
    Texts(qmp.text, pid.text, d.image.text,
          if d.uefi.Some? then Some((d.uefi.value.code.text, d.uefi.value.vars.text)) else None)
  }

  predicate ZeroSshPort(d: Definition) {
    d.network.User? && d.network.sshPort == Some(0)
  }

  /** Exactly the definitions that can be turned into a command line. */
  predicate Buildable(d: Definition, qmp: Path, pid: Path, present: set<Path>) {
    StartProblem(d, present).None? && PathsAreText(d, qmp, pid) && !ZeroSshPort(d)
  }

  lemma RenderFirst(o: Opt, opts: seq<Opt>)
    ensures RenderAll([o] + opts) == Render(o) + RenderAll(opts)
  {
    assert ([o] + opts)[1..] == opts;
  }

  lemma {:induction false} RenderAppend(a: seq<Opt>, b: seq<Opt>)
    ensures RenderAll(a + b) == RenderAll(a) + RenderAll(b)
  {
    if a == [] {
      assert a + b == b;
    } else {
      RenderAppend(a[1..], b);
      Uncons(a, b);
      RenderFirst(a[0], a[1..] + b);
      Regroup(Render(a[0]), RenderAll(a[1..]), RenderAll(b));
    }
  }

  /** `build_qemu_args`: the vector grows section by section. */
  method BuildQemuArgs(d: Definition, qmp: Path, pid: Path, daemonize: bool, present: set<Path>)
      returns (r: Result<seq<string>, Problem>)
    ensures r.Ok? <==> Buildable(d, qmp, pid, present)
    ensures r.Ok? <==> StartProblem(d, present).None? && PathsAreText(d, qmp, pid) && d.network != User(Some(0))
    ensures r.Err? ==> r.error == if StartProblem(d, present).Some? then StartProblem(d, present).value
                                  else if !PathsAreText(d, qmp, pid) then NotUtf8 else ZeroPort
    ensures r.Ok? ==> r.value == RenderAll(Options(d, TextsOf(d, qmp, pid), daemonize))
  {
    var problem := StartProblem(d, present);
    if problem.Some? {
      return Err(problem.value);
    }
    if !qmp.Utf8? || !pid.Utf8? {
      return Err(NotUtf8);
    }
    ghost var done := BaseOpts(d, qmp.text, pid.text, daemonize);
    var args := RenderAll(BaseOpts(d, qmp.text, pid.text, daemonize));
    if d.uefi.Some? && !(d.uefi.value.code.Utf8? && d.uefi.value.vars.Utf8?) {
      return Err(NotUtf8);
    }
    var uefi := if d.uefi.Some? then Some((d.uefi.value.code.text, d.uefi.value.vars.text)) else None;
    args, done := Extend(args, done, UefiOpts(uefi));
    if !d.image.Utf8? {
      return Err(NotUtf8);
    }
    args, done := Extend(args, done, [DiskOpt(d, d.image.text)]);
    args, done := Extend(args, done, BusOpts(d));
    if d.network.User? && d.network.sshPort.Some? && d.network.sshPort.value == 0 {
      return Err(ZeroPort);
    }
    args, done := Extend(args, done, NetworkOpts(d));
    args, done := Extend(args, done, TailOpts(d));
    return Ok(args);
  }

  /** Push one section's arguments. */
  method Extend(args: seq<string>, ghost done: seq<Opt>, section: seq<Opt>) returns (r: seq<string>, ghost done': seq<Opt>)
    requires args == RenderAll(done)
    ensures done' == done + section && r == RenderAll(done')
  {
    RenderAppend(done, section);
    r, done' := args + RenderAll(section), done + section;
  }

  /** A ready plan of a loaded definition can start: it validates, and the
      command line can be built exactly when its ssh port is not zero and its paths are text. */
  lemma ReadyPlanBuilds(d: Definition, boot: BootReport, qmp: Path, pid: Path, present: set<Path>)
    requires StorageProblem(d, present).None? && Ready(d, boot, present)
    ensures StartProblem(d, present).None?
    ensures Buildable(d, qmp, pid, present) <==> PathsAreText(d, qmp, pid) && !ZeroSshPort(d)
  {
    if StartProblem(d, present).Some? {
      StartProblemsAreReasons(d, boot, present);
    }
  }
}
