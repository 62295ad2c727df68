/** What a QEMU command line says, read by its switches and keys, and that the one that is built
    says what the definition asks for (`build_qemu_args` in src/vm.rs). */
module QemuReads {
  import opened Wrappers
  import opened Text
  import opened VmDefinition
  import opened QemuArgs
  import opened QemuArgsTheorems

  // ---- Reading options -------------------------------------------------------------

  /** The option list has this option, and no other under the same switch. */
  ghost predicate Only(opts: seq<Opt>, o: Opt) {
    o in opts && forall x :: x in opts && x.name == o.name ==> x == o
  }

  ghost predicate Mentions(o: Opt, key: string) {
    o.Listed? && exists p :: p in o.props && p.0 == key
  }

  /** The key has this value, and no other. */
  ghost predicate Sets(o: Opt, key: string, value: string) {
    o.Listed? && (key, value) in o.props && forall p :: p in o.props && p.0 == key ==> p.1 == value
  }

  /** This is the one option under its switch that sets the key so. */
  ghost predicate OnlyWith(opts: seq<Opt>, o: Opt, key: string, value: string) {
    o in opts && Sets(o, key, value) && forall x :: x in opts && x.name == o.name && x.Listed? && (key, value) in x.props ==> x == o
  }

  /** This is the one option that has the key. */
  ghost predicate OnlyMention(opts: seq<Opt>, o: Opt, key: string) {
    o in opts && forall x :: x in opts && Mentions(x, key) ==> x == o
  }

  /** Decimal digits for this number. */
  ghost predicate Number(s: string, n: nat) {
    s != "" && (forall i :: 0 <= i < |s| ==> '0' <= s[i] <= '9') && Value(s) == n
  }

  /** The device model of this kind on the architecture's bus. */
  ghost predicate Model(o: Opt, kind: string, a: Architecture) {
    o.Listed? && o.name == "-device" && o.head == Some(kind + if a.X86_64? then "-pci" else "-device")
  }

  // ---- What the list says of a definition ------------------------------------------------

  /** Name, processors, memory, processor model, display, pid file; daemonized or not. */
  ghost predicate SaysBase(opts: seq<Opt>, d: Definition, t: Texts, daemonize: bool) {
    && Only(opts, Valued("-name", d.name)) && Only(opts, Valued("-pidfile", t.pid))
    && Only(opts, Valued("-cpu", "host")) && Only(opts, Valued("-display", "none"))
    && (exists s: string :: Only(opts, Valued("-smp", s)) && Number(s, d.vcpus))
    && (exists s: string :: Only(opts, Valued("-m", s)) && Number(s, d.memoryMb))
    && (Flag("-daemonize") in opts <==> daemonize)
  }

  /** The machine of the architecture under KVM, and QMP on the socket. */
  ghost predicate SaysMachine(opts: seq<Opt>, d: Definition, t: Texts) {
    && (exists o: Opt :: Only(opts, o) && o.Listed? && o.name == "-machine" && Sets(o, "accel", "kvm")
                    && o.head == Some(if d.architecture.X86_64? then "q35" else "virt"))
    && (exists o: Opt :: Only(opts, o) && o.Listed? && o.name == "-qmp" && o.head == Some("unix:" + t.qmp)
                    && Sets(o, "server", "on") && Sets(o, "wait", "off"))
  }

  /** The image, its format, and whether it may be written. */
  ghost predicate SaysDisk(opts: seq<Opt>, d: Definition, t: Texts) {
    exists o: Opt :: o.name == "-drive" && OnlyWith(opts, o, "id", "gk_disk0") && IsDisk(o, d, t)
  }

  ghost predicate IsDisk(o: Opt, d: Definition, t: Texts) {
    && Sets(o, "file", t.image) && Sets(o, "format", FormatText(d.imageFormat)) && Sets(o, "if", "none") && Sets(o, "cache", "none")
    && (if d.readonly then Sets(o, "readonly", "on") else !Mentions(o, "readonly"))
  }

  /** QEMU's names of the formats. */
  ghost function FormatText(f: ImageFormat): string {
    if f.Qcow2? then "qcow2" else if f.Raw? then "raw" else if f.Vmdk? then "vmdk" else if f.Vdi? then "vdi" else "vpc"
  }

  /** The disk hangs on the bus that was asked for. */
  ghost predicate SaysBus(opts: seq<Opt>, d: Definition) {
    exists o: Opt :: OnlyWith(opts, o, "drive", "gk_disk0") && OnBus(opts, o, d)
  }

  ghost predicate OnBus(opts: seq<Opt>, o: Opt, d: Definition) {
    match d.diskBus
    case VirtioBlk => Model(o, "virtio-blk", d.architecture)
    case VirtioScsi =>
      && o.Listed? && o.name == "-device" && o.head == Some("scsi-hd") && Sets(o, "bus", "gk_scsi0.0")
      && exists c: Opt :: OnlyWith(opts, c, "id", "gk_scsi0") && Model(c, "virtio-scsi", d.architecture)
  }

  /** The firmware, code before variables and only the code read-only; or none. */
  ghost predicate SaysFirmware(opts: seq<Opt>, t: Texts) {
    match t.uefi
    case None => forall o: Opt :: o in opts ==> !Sets(o, "if", "pflash")
    case Some((code, vars)) =>
      exists i: nat, j: nat :: i < j < |opts|
        && (forall o: Opt :: o in opts && Sets(o, "if", "pflash") ==> o == opts[i] || o == opts[j])
        && Firmware(opts[i], code) && Sets(opts[i], "readonly", "on")
        && Firmware(opts[j], vars) && !Mentions(opts[j], "readonly")
  }

  ghost predicate Firmware(o: Opt, file: string) {
    o.name == "-drive" && Sets(o, "if", "pflash") && Sets(o, "format", "raw") && Sets(o, "file", file)
  }

  /** The network backend with its settings and a card on it; or neither. */
  ghost predicate SaysNetwork(opts: seq<Opt>, d: Definition) {
    match d.network
    case NoNetwork => forall o: Opt :: o in opts ==> o.name != "-netdev" && !Mentions(o, "netdev")
    case User(port) => HasCard(opts, d) && exists o: Opt :: Only(opts, o) && Backend(o, "user") && Forwards(o, port)
    case Tap(ifname, vhost) =>
      HasCard(opts, d) && exists o: Opt :: Only(opts, o) && Backend(o, "tap") && TapSettings(o, ifname, vhost)
  }

  ghost predicate TapSettings(o: Opt, ifname: string, vhost: bool) {
    && Sets(o, "ifname", ifname) && Sets(o, "vhost", if vhost then "on" else "off")
    && Sets(o, "script", "no") && Sets(o, "downscript", "no")
  }

  ghost predicate Backend(o: Opt, kind: string) {
    o.Listed? && o.name == "-netdev" && o.head == Some(kind) && Sets(o, "id", "gk_net0")
  }

  ghost predicate HasCard(opts: seq<Opt>, d: Definition) {
    exists o: Opt :: OnlyWith(opts, o, "netdev", "gk_net0") && Model(o, "virtio-net", d.architecture)
  }

  /** The host's port is forwarded to the guest's port 22; or none is. */
  ghost predicate Forwards(o: Opt, port: Option<nat>) {
    match port
    case None => !Mentions(o, "hostfwd")
    case Some(p) => exists s: string :: Sets(o, "hostfwd", "tcp:127.0.0.1:" + s + "-:22") && Number(s, p)
  }

  /** The guest's vsock address; or none. */
  ghost predicate SaysVsock(opts: seq<Opt>, d: Definition) {
    match d.vsockCid
    case None => forall o: Opt :: o in opts ==> !Mentions(o, "guest-cid")
    case Some(cid) =>
      exists o: Opt, s: string :: OnlyMention(opts, o, "guest-cid") && Sets(o, "guest-cid", s) && Number(s, cid)
                                  && Model(o, "vhost-vsock", d.architecture)
  }

  /** A balloon, and a random number device fed by the host's. */
  ghost predicate SaysExtras(opts: seq<Opt>, d: Definition) {
    && (exists o: Opt :: o in opts && Model(o, "virtio-balloon", d.architecture))
    && (exists o: Opt :: o in opts && Model(o, "virtio-rng", d.architecture) && Sets(o, "rng", "gk_rng_backend0"))
    && (exists o: Opt :: o in opts && o.Listed? && o.name == "-object" && o.head == Some("rng-random")
                         && Sets(o, "id", "gk_rng_backend0") && Sets(o, "filename", "/dev/urandom"))
  }

  ghost predicate Says(opts: seq<Opt>, d: Definition, t: Texts, daemonize: bool) {
    && SaysExtras(opts, d)
    && SaysBase(opts, d, t, daemonize) && SaysMachine(opts, d, t) && SaysDisk(opts, d, t) && SaysBus(opts, d)
    && SaysFirmware(opts, t) && SaysNetwork(opts, d) && SaysVsock(opts, d)
  }

  lemma DecimalIsNumber(n: nat)
    ensures Number(Decimal(n), n)
  {
    DecimalValue(n);
  }

  // ---- The sections -------------------------------------------------------------------------

  /** What stands under the switches of the first section stands there only. */
  lemma OthersUnder(d: Definition, t: Texts, daemonize: bool, o: Opt)
    requires o in Options(d, t, daemonize) && o !in BaseOpts(d, t.qmp, t.pid, daemonize)
    ensures o.Listed? && (o.name == "-drive" || o.name == "-device" || o.name == "-netdev" || o.name == "-object")
  {
    SectionsOf(d, t, daemonize, o);
  }

  lemma BaseNames(d: Definition, t: Texts, daemonize: bool, o: Opt)
    requires o in BaseOpts(d, t.qmp, t.pid, daemonize)
    ensures o.name == "-name" ==> o == Valued("-name", d.name)
    ensures o.name == "-pidfile" ==> o == Valued("-pidfile", t.pid)
    ensures o.name == "-cpu" ==> o == Valued("-cpu", "host")
    ensures o.name == "-display" ==> o == Valued("-display", "none")
    ensures o.name == "-smp" ==> o == Valued("-smp", Decimal(d.vcpus))
    ensures o.name == "-m" ==> o == Valued("-m", Decimal(d.memoryMb))
  {
  }

  lemma OnlyInBase(d: Definition, t: Texts, daemonize: bool, o: Opt)
    requires o in BaseOpts(d, t.qmp, t.pid, daemonize)
      && forall x :: x in BaseOpts(d, t.qmp, t.pid, daemonize) && x.name == o.name ==> x == o
    requires o.name != "-drive" && o.name != "-device" && o.name != "-netdev" && o.name != "-object"
    ensures Only(Options(d, t, daemonize), o)
  {
    SectionsOf(d, t, daemonize, o);
    forall x | x in Options(d, t, daemonize) && x.name == o.name ensures x == o {
      if x !in BaseOpts(d, t.qmp, t.pid, daemonize) {
        OthersUnder(d, t, daemonize, x);
      }
    }
  }

  lemma PlainSays(d: Definition, t: Texts, daemonize: bool, o: Opt)
    requires o in [Valued("-name", d.name), Valued("-pidfile", t.pid), Valued("-cpu", "host"), Valued("-display", "none"),
                   Valued("-smp", Decimal(d.vcpus)), Valued("-m", Decimal(d.memoryMb))]
    ensures Only(Options(d, t, daemonize), o)
  {
    var base := BaseOpts(d, t.qmp, t.pid, daemonize);
    assert o in base;
    forall x | x in base && x.name == o.name ensures x == o {
      BaseNames(d, t, daemonize, x);
    }
    OnlyInBase(d, t, daemonize, o);
  }

  lemma DaemonizeSays(d: Definition, t: Texts, daemonize: bool)
    ensures Flag("-daemonize") in Options(d, t, daemonize) <==> daemonize
  {
    var o := Flag("-daemonize");
    SectionsOf(d, t, daemonize, o);
    if o in Options(d, t, daemonize) && o !in BaseOpts(d, t.qmp, t.pid, daemonize) {
      OthersUnder(d, t, daemonize, o);
    }
  }

  lemma BaseSays(d: Definition, t: Texts, daemonize: bool)
    ensures SaysBase(Options(d, t, daemonize), d, t, daemonize)
  {
    PlainSays(d, t, daemonize, Valued("-name", d.name));
    PlainSays(d, t, daemonize, Valued("-pidfile", t.pid));
    PlainSays(d, t, daemonize, Valued("-cpu", "host"));
    PlainSays(d, t, daemonize, Valued("-display", "none"));
    PlainSays(d, t, daemonize, Valued("-smp", Decimal(d.vcpus)));
    PlainSays(d, t, daemonize, Valued("-m", Decimal(d.memoryMb)));
    DecimalIsNumber(d.vcpus);
    DecimalIsNumber(d.memoryMb);
    DaemonizeSays(d, t, daemonize);
  }

  lemma BaseLists(d: Definition, t: Texts, daemonize: bool, o: Opt)
    requires o in BaseOpts(d, t.qmp, t.pid, daemonize)
    ensures o.name == "-machine" ==> o == MachineOpt(d)
    ensures o.name == "-qmp" ==> o == QmpOpt(t)
  {
  }

  ghost function MachineOpt(d: Definition): Opt {
    Listed("-machine", Some(Machine(d.architecture)), [("accel", "kvm")])
  }

  ghost function QmpOpt(t: Texts): Opt {
    Listed("-qmp", Some("unix:" + t.qmp), [("server", "on"), ("wait", "off")])
  }

  lemma ListSays(d: Definition, t: Texts, daemonize: bool, o: Opt)
    requires o in [MachineOpt(d), QmpOpt(t)]
    ensures Only(Options(d, t, daemonize), o)
  {
    var base := BaseOpts(d, t.qmp, t.pid, daemonize);
    assert base[1] == MachineOpt(d) && base[5] == QmpOpt(t);
    forall x | x in base && x.name == o.name ensures x == o {
      BaseLists(d, t, daemonize, x);
    }
    OnlyInBase(d, t, daemonize, o);
  }

  lemma MachineSays(d: Definition, t: Texts, daemonize: bool)
    ensures SaysMachine(Options(d, t, daemonize), d, t)
  {
    ListSays(d, t, daemonize, MachineOpt(d));
    ListSays(d, t, daemonize, QmpOpt(t));
    QmpKeys(QmpOpt(t), t);
    MachineKeys(d);
  }

  lemma MachineKeys(d: Definition)
    ensures Sets(MachineOpt(d), "accel", "kvm") && MachineOpt(d).head == Some(if d.architecture.X86_64? then "q35" else "virt")
  {
    assert MachineOpt(d).props[0] == ("accel", "kvm");
  }

  lemma QmpKeys(o: Opt, t: Texts)
    requires o == Listed("-qmp", Some("unix:" + t.qmp), [("server", "on"), ("wait", "off")])
    ensures Sets(o, "server", "on") && Sets(o, "wait", "off")
  {
    assert o.props[0] == ("server", "on") && o.props[1] == ("wait", "off");
  }

  // ---- Who has which key ------------------------------------------------------------------

  ghost predicate Has(o: Opt, key: string, value: string) {
    o.Listed? && (key, value) in o.props
  }

  /** None of the keys by which devices and drives are found. */
  ghost predicate Plain(o: Opt) {
    && !Mentions(o, "drive") && !Mentions(o, "netdev") && !Mentions(o, "guest-cid") && o.name != "-netdev"
    && !Has(o, "id", "gk_disk0") && !Has(o, "id", "gk_scsi0") && !Has(o, "if", "pflash")
  }

  lemma BaseKeys(d: Definition, t: Texts, daemonize: bool, o: Opt)
    requires o in BaseOpts(d, t.qmp, t.pid, daemonize)
    ensures Plain(o)
  {
  }

  lemma UefiKeys(t: Texts, o: Opt)
    requires o in UefiOpts(t.uefi)
    ensures o.name == "-drive" && !Mentions(o, "drive") && !Mentions(o, "netdev") && !Mentions(o, "guest-cid") && !Mentions(o, "id")
  {
  }

  lemma DiskKeys(d: Definition, t: Texts)
    ensures var o := DiskOpt(d, t.image);
            && !Mentions(o, "drive") && !Mentions(o, "netdev") && !Mentions(o, "guest-cid")
            && Sets(o, "id", "gk_disk0") && Sets(o, "if", "none") && Sets(o, "file", t.image) && Sets(o, "cache", "none")
  {
    var o := DiskOpt(d, t.image);
    assert o.props[0] == ("id", "gk_disk0") && o.props[1] == ("file", t.image)
      && o.props[3] == ("if", "none") && o.props[4] == ("cache", "none");
  }

  lemma DiskFormat(d: Definition, t: Texts)
    ensures var o := DiskOpt(d, t.image);
            && Sets(o, "format", FormatName(d.imageFormat))
            && (if d.readonly then Sets(o, "readonly", "on") else !Mentions(o, "readonly"))
  {
    var o := DiskOpt(d, t.image);
    assert o.props[2] == ("format", FormatName(d.imageFormat));
    if d.readonly {
      assert o.props[5] == ("readonly", "on");
    }
  }

  ghost predicate DeviceKeys(o: Opt) {
    o.Listed? && o.name == "-device" && !Has(o, "id", "gk_disk0") && !Has(o, "if", "pflash")
  }

  lemma BlkKeys(d: Definition)
    ensures var o := Device("virtio-blk" + Bus(d.architecture), [("drive", "gk_disk0"), ("id", "gk_vblk0")]);
            && DeviceKeys(o) && Sets(o, "drive", "gk_disk0") && Model(o, "virtio-blk", d.architecture)
            && !Mentions(o, "netdev") && !Mentions(o, "guest-cid") && !Has(o, "id", "gk_scsi0")
  {
    var o := Device("virtio-blk" + Bus(d.architecture), [("drive", "gk_disk0"), ("id", "gk_vblk0")]);
    assert o.props[0] == ("drive", "gk_disk0");
  }

  lemma ScsiKeys(d: Definition)
    ensures var o := Device("virtio-scsi" + Bus(d.architecture), [("id", "gk_scsi0")]);
            && DeviceKeys(o) && Sets(o, "id", "gk_scsi0") && Model(o, "virtio-scsi", d.architecture)
            && !Mentions(o, "drive") && !Mentions(o, "netdev") && !Mentions(o, "guest-cid")
  {
    var o := Device("virtio-scsi" + Bus(d.architecture), [("id", "gk_scsi0")]);
    assert o.props[0] == ("id", "gk_scsi0");
  }

  lemma HdKeys()
    ensures var o := Device("scsi-hd", [("drive", "gk_disk0"), ("bus", "gk_scsi0.0"), ("id", "gk_scsi_disk0")]);
            && DeviceKeys(o) && Sets(o, "drive", "gk_disk0") && Sets(o, "bus", "gk_scsi0.0")
            && !Mentions(o, "netdev") && !Mentions(o, "guest-cid") && !Has(o, "id", "gk_scsi0")
  {
    var o := Device("scsi-hd", [("drive", "gk_disk0"), ("bus", "gk_scsi0.0"), ("id", "gk_scsi_disk0")]);
    assert o.props[0] == ("drive", "gk_disk0") && o.props[1] == ("bus", "gk_scsi0.0");
  }

  lemma NicKeys(d: Definition)
    ensures var o := Nic(d);
            && DeviceKeys(o) && Sets(o, "netdev", "gk_net0") && Model(o, "virtio-net", d.architecture)
            && !Mentions(o, "drive") && !Mentions(o, "guest-cid") && !Has(o, "id", "gk_scsi0")
  {
    assert Nic(d).props[0] == ("netdev", "gk_net0");
  }

  lemma UserKeys(port: Option<nat>)
    ensures var forward := if port.Some? then [("hostfwd", "tcp:127.0.0.1:" + Decimal(port.value) + "-:22")] else [];
            var o := Listed("-netdev", Some("user"), [("id", "gk_net0")] + forward);
            && Backend(o, "user") && Forwards(o, port) && !Mentions(o, "drive") && !Mentions(o, "netdev") && !Mentions(o, "guest-cid")
            && !Has(o, "id", "gk_disk0") && !Has(o, "id", "gk_scsi0") && !Has(o, "if", "pflash")
  {
    var forward := if port.Some? then [("hostfwd", "tcp:127.0.0.1:" + Decimal(port.value) + "-:22")] else [];
    var o := Listed("-netdev", Some("user"), [("id", "gk_net0")] + forward);
    assert o.props[0] == ("id", "gk_net0");
    if port.Some? {
      assert o.props[1] == ("hostfwd", "tcp:127.0.0.1:" + Decimal(port.value) + "-:22");
      DecimalIsNumber(port.value);
    }
  }

  ghost function TapOpt(ifname: string, vhost: bool): Opt {
    Listed("-netdev", Some("tap"), [("id", "gk_net0"), ("ifname", ifname), ("script", "no"), ("downscript", "no"),
                                    ("vhost", if vhost then "on" else "off")])
  }

  lemma TapSets(ifname: string, vhost: bool)
    ensures var o := TapOpt(ifname, vhost);
            && Backend(o, "tap") && Sets(o, "ifname", ifname) && Sets(o, "script", "no") && Sets(o, "downscript", "no")
            && Sets(o, "vhost", if vhost then "on" else "off")
  {
    var o := TapOpt(ifname, vhost);
    assert o.props[0] == ("id", "gk_net0") && o.props[1] == ("ifname", ifname) && o.props[2] == ("script", "no");
    assert o.props[3] == ("downscript", "no") && o.props[4] == ("vhost", if vhost then "on" else "off");
  }

  lemma TapKeys(ifname: string, vhost: bool)
    ensures var o := TapOpt(ifname, vhost);
            && !Mentions(o, "drive") && !Mentions(o, "netdev") && !Mentions(o, "guest-cid")
            && !Has(o, "id", "gk_disk0") && !Has(o, "id", "gk_scsi0") && !Has(o, "if", "pflash")
  {
  }

  lemma BalloonKeys(d: Definition)
    ensures Plain(Device("virtio-balloon" + Bus(d.architecture), [("id", "gk_balloon0")]))
  {
  }

  lemma RngKeys(d: Definition)
    ensures Plain(Listed("-object", Some("rng-random"), [("id", "gk_rng_backend0"), ("filename", "/dev/urandom")]))
    ensures Plain(Device("virtio-rng" + Bus(d.architecture), [("rng", "gk_rng_backend0"), ("id", "gk_rng0")]))
  {
  }

  ghost function VsockOpt(d: Definition, cid: nat): Opt {
    Device("vhost-vsock" + Bus(d.architecture), [("guest-cid", Decimal(cid)), ("id", "gk_vsock0")])
  }

  lemma VsockKeys(d: Definition, cid: nat)
    ensures var o := VsockOpt(d, cid);
            && DeviceKeys(o) && Sets(o, "guest-cid", Decimal(cid)) && Model(o, "vhost-vsock", d.architecture)
            && !Mentions(o, "drive") && !Mentions(o, "netdev") && !Has(o, "id", "gk_scsi0")
  {
    assert VsockOpt(d, cid).props[0] == ("guest-cid", Decimal(cid));
  }

  // ---- One option for each key -----------------------------------------------------------

  ghost function DiskDevice(d: Definition): Opt {
    BusOpts(d)[|BusOpts(d)| - 1]
  }

  /** Who an option is by the keys it has. */
  ghost predicate Marked(o: Opt, d: Definition, t: Texts) {
    && (Has(o, "id", "gk_disk0") ==> o == DiskOpt(d, t.image))
    && (Has(o, "drive", "gk_disk0") ==> o == DiskDevice(d))
    && (Has(o, "id", "gk_scsi0") ==> o == BusOpts(d)[0])
    && (Has(o, "if", "pflash") ==> o in UefiOpts(t.uefi))
    && (Mentions(o, "netdev") ==> !d.network.NoNetwork? && o == Nic(d))
    && (o.name == "-netdev" ==> !d.network.NoNetwork? && o == NetworkOpts(d)[0])
    && (Mentions(o, "guest-cid") ==> d.vsockCid.Some? && o == VsockOpt(d, d.vsockCid.value))
  }

  lemma PlainMarked(o: Opt, d: Definition, t: Texts)
    requires Plain(o)
    ensures Marked(o, d, t)
  {
    assert Has(o, "drive", "gk_disk0") ==> Mentions(o, "drive");
  }

  lemma UefiMarked(d: Definition, t: Texts, o: Opt)
    requires o in UefiOpts(t.uefi)
    ensures Marked(o, d, t)
  {
    UefiKeys(t, o);
    assert Has(o, "id", "gk_disk0") || Has(o, "id", "gk_scsi0") ==> Mentions(o, "id");
    assert Has(o, "drive", "gk_disk0") ==> Mentions(o, "drive");
  }

  lemma DiskMarked(d: Definition, t: Texts)
    ensures Marked(DiskOpt(d, t.image), d, t)
  {
    var o := DiskOpt(d, t.image);
    DiskKeys(d, t);
    assert Has(o, "id", "gk_scsi0") ==> ("id", "gk_scsi0").1 == "gk_disk0";
    assert Has(o, "if", "pflash") ==> ("if", "pflash").1 == "none";
    assert Has(o, "drive", "gk_disk0") ==> Mentions(o, "drive");
  }

  lemma BusMarked(d: Definition, t: Texts, o: Opt)
    requires o in BusOpts(d)
    ensures Marked(o, d, t)
  {
    match d.diskBus
    case VirtioBlk => BlkKeys(d);
    case VirtioScsi =>
      ScsiKeys(d);
      HdKeys();
      assert o == BusOpts(d)[0] || o == BusOpts(d)[1];
  }

  lemma NetMarked(d: Definition, t: Texts, o: Opt)
    requires o in NetworkOpts(d)
    ensures Marked(o, d, t)
  {
    NicKeys(d);
    assert o == NetworkOpts(d)[0] || o == Nic(d);
    assert Has(o, "drive", "gk_disk0") ==> Mentions(o, "drive");
    match d.network
    case User(port) => UserKeys(port);
    case Tap(ifname, vhost) => TapKeys(ifname, vhost);
    case NoNetwork =>
  }

  lemma TailMarked(d: Definition, t: Texts, o: Opt)
    requires o in TailOpts(d)
    ensures Marked(o, d, t)
  {
    BalloonKeys(d);
    RngKeys(d);
    if Plain(o) {
      PlainMarked(o, d, t);
    } else {
      VsockKeys(d, d.vsockCid.value);
      assert o == VsockOpt(d, d.vsockCid.value);
      assert Has(o, "drive", "gk_disk0") ==> Mentions(o, "drive");
    }
  }

  lemma AllMarked(d: Definition, t: Texts, daemonize: bool, o: Opt)
    requires o in Options(d, t, daemonize)
    ensures Marked(o, d, t)
  {
    SectionsOf(d, t, daemonize, o);
    if o in BaseOpts(d, t.qmp, t.pid, daemonize) { BaseKeys(d, t, daemonize, o); PlainMarked(o, d, t); }
    else if o in UefiOpts(t.uefi) { UefiMarked(d, t, o); }
    else if o == DiskOpt(d, t.image) { DiskMarked(d, t); }
    else if o in BusOpts(d) { BusMarked(d, t, o); }
    else if o in NetworkOpts(d) { NetMarked(d, t, o); }
    else { TailMarked(d, t, o); }
  }

  ghost predicate AllAre(opts: seq<Opt>, d: Definition, t: Texts) {
    forall o :: o in opts ==> Marked(o, d, t)
  }

  lemma EachMarked(d: Definition, t: Texts, daemonize: bool)
    ensures AllAre(Options(d, t, daemonize), d, t)
  {
    forall o | o in Options(d, t, daemonize) ensures Marked(o, d, t) {
      AllMarked(d, t, daemonize, o);
    }
  }

  // ---- The list says what the definition asks for ---------------------------------------------

  lemma DiskSays(d: Definition, t: Texts, opts: seq<Opt>)
    requires AllAre(opts, d, t) && DiskOpt(d, t.image) in opts
    ensures SaysDisk(opts, d, t)
  {
    var o := DiskOpt(d, t.image);
    DiskKeys(d, t);
    DiskFormat(d, t);
    forall x | x in opts && x.name == o.name && x.Listed? && ("id", "gk_disk0") in x.props ensures x == o {
      assert Has(x, "id", "gk_disk0") && Marked(x, d, t);
    }
    assert OnlyWith(opts, o, "id", "gk_disk0");
  }

  lemma OneDevice(d: Definition, t: Texts, opts: seq<Opt>, o: Opt, key: string, value: string)
    requires AllAre(opts, d, t) && o in opts && Sets(o, key, value)
    requires forall x :: Marked(x, d, t) && Has(x, key, value) ==> x == o
    ensures OnlyWith(opts, o, key, value)
  {
    forall x | x in opts && x.name == o.name && x.Listed? && (key, value) in x.props ensures x == o {
      assert Marked(x, d, t) && Has(x, key, value);
    }
  }

  lemma BusSays(d: Definition, t: Texts, opts: seq<Opt>)
    requires AllAre(opts, d, t) && forall o :: o in BusOpts(d) ==> o in opts
    ensures SaysBus(opts, d)
  {
    var bus := BusOpts(d);
    match d.diskBus
    case VirtioBlk =>
      BlkKeys(d);
      assert bus[0] in bus;
      OneDevice(d, t, opts, bus[0], "drive", "gk_disk0");
    case VirtioScsi =>
      ScsiKeys(d);
      HdKeys();
      assert bus[0] in bus && bus[1] in bus;
      OneDevice(d, t, opts, bus[0], "id", "gk_scsi0");
      OneDevice(d, t, opts, bus[1], "drive", "gk_disk0");
  }

  lemma CardSays(d: Definition, t: Texts, opts: seq<Opt>)
    requires AllAre(opts, d, t) && Nic(d) in opts
    ensures HasCard(opts, d)
  {
    NicKeys(d);
    forall x | Marked(x, d, t) && Has(x, "netdev", "gk_net0") ensures x == Nic(d) {
      assert Mentions(x, "netdev");
    }
    OneDevice(d, t, opts, Nic(d), "netdev", "gk_net0");
  }

  lemma NetworkSays(d: Definition, t: Texts, opts: seq<Opt>)
    requires AllAre(opts, d, t) && forall o :: o in NetworkOpts(d) ==> o in opts
    ensures SaysNetwork(opts, d)
  {
    var net := NetworkOpts(d);
    match d.network
    case NoNetwork =>
    case User(port) =>
      assert net[0] in net && net[1] in net;
      CardSays(d, t, opts);
      UserKeys(port);
      assert Only(opts, net[0]);
    case Tap(ifname, vhost) =>
      assert net[0] in net && net[1] in net;
      CardSays(d, t, opts);
      TapSets(ifname, vhost);
      assert Only(opts, net[0]);
  }

  lemma VsockSays(d: Definition, t: Texts, opts: seq<Opt>)
    requires AllAre(opts, d, t) && (d.vsockCid.Some? ==> VsockOpt(d, d.vsockCid.value) in opts)
    ensures SaysVsock(opts, d)
  {
    if d.vsockCid.Some? {
      var cid := d.vsockCid.value;
      VsockKeys(d, cid);
      DecimalIsNumber(cid);
      forall x | x in opts && Mentions(x, "guest-cid") ensures x == VsockOpt(d, cid) {
        assert Marked(x, d, t);
      }
    }
  }

  lemma CodeKeys(code: string)
    ensures var o := Drive([("if", "pflash"), ("format", "raw"), ("readonly", "on"), ("file", code)]);
            Firmware(o, code) && Sets(o, "readonly", "on")
  {
    var o := Drive([("if", "pflash"), ("format", "raw"), ("readonly", "on"), ("file", code)]);
    assert o.props[0] == ("if", "pflash") && o.props[1] == ("format", "raw");
    assert o.props[2] == ("readonly", "on") && o.props[3] == ("file", code);
  }

  lemma VarsKeys(vars: string)
    ensures var o := Drive([("if", "pflash"), ("format", "raw"), ("file", vars)]);
            Firmware(o, vars) && !Mentions(o, "readonly")
  {
    var o := Drive([("if", "pflash"), ("format", "raw"), ("file", vars)]);
    assert o.props[0] == ("if", "pflash") && o.props[1] == ("format", "raw") && o.props[2] == ("file", vars);
  }

  lemma FirmwareSays(d: Definition, t: Texts, opts: seq<Opt>, at: nat)
    requires AllAre(opts, d, t) && at + |UefiOpts(t.uefi)| <= |opts| && opts[at..at + |UefiOpts(t.uefi)|] == UefiOpts(t.uefi)
    ensures SaysFirmware(opts, t)
  {
    var uefi := UefiOpts(t.uefi);
    forall o | o in opts && Sets(o, "if", "pflash") ensures o in uefi {
      assert Has(o, "if", "pflash") && Marked(o, d, t);
    }
    if t.uefi.Some? {
      var (code, vars) := t.uefi.value;
      CodeKeys(code);
      VarsKeys(vars);
      assert opts[at] == uefi[0] && opts[at + 1] == uefi[1];
      assert forall o :: o in uefi ==> o == uefi[0] || o == uefi[1];
    }
  }

  lemma SaysDevices(d: Definition, t: Texts, daemonize: bool)
    ensures SaysDisk(Options(d, t, daemonize), d, t) && SaysBus(Options(d, t, daemonize), d)
  {
    EachMarked(d, t, daemonize);
    Sections(d, t, daemonize);
    DiskSays(d, t, Options(d, t, daemonize));
    BusSays(d, t, Options(d, t, daemonize));
  }

  lemma SaysLinks(d: Definition, t: Texts, daemonize: bool)
    ensures SaysNetwork(Options(d, t, daemonize), d) && SaysVsock(Options(d, t, daemonize), d)
  {
    EachMarked(d, t, daemonize);
    Sections(d, t, daemonize);
    NetworkSays(d, t, Options(d, t, daemonize));
    VsockSays(d, t, Options(d, t, daemonize));
  }

  lemma SaysFlash(d: Definition, t: Texts, daemonize: bool)
    ensures SaysFirmware(Options(d, t, daemonize), t)
  {
    EachMarked(d, t, daemonize);
    UefiAt(d, t, daemonize);
    FirmwareSays(d, t, Options(d, t, daemonize), |BaseOpts(d, t.qmp, t.pid, daemonize)|);
  }

  lemma TailThere(d: Definition, t: Texts, daemonize: bool, i: nat)
    requires i < |TailOpts(d)|
    ensures TailOpts(d)[i] in Options(d, t, daemonize)
  {
    SectionsOf(d, t, daemonize, TailOpts(d)[i]);
  }

  lemma TailParts(d: Definition)
    ensures |TailOpts(d)| >= 3 && Model(TailOpts(d)[0], "virtio-balloon", d.architecture)
    ensures Model(TailOpts(d)[2], "virtio-rng", d.architecture)
    ensures TailOpts(d)[1] == Listed("-object", Some("rng-random"), [("id", "gk_rng_backend0"), ("filename", "/dev/urandom")])
    ensures TailOpts(d)[2] == Device("virtio-rng" + Bus(d.architecture), [("rng", "gk_rng_backend0"), ("id", "gk_rng0")])
  {
  }

  lemma ExtrasSay(d: Definition, t: Texts, daemonize: bool)
    ensures SaysExtras(Options(d, t, daemonize), d)
  {
    TailParts(d);
    var tail := TailOpts(d);
    TailThere(d, t, daemonize, 0);
    TailThere(d, t, daemonize, 1);
    TailThere(d, t, daemonize, 2);
    RngSets(tail[1], tail[2], d);
    Extras(Options(d, t, daemonize), d, tail[0], tail[1], tail[2]);
  }

  lemma Extras(opts: seq<Opt>, d: Definition, balloon: Opt, backend: Opt, rng: Opt)
    requires balloon in opts && backend in opts && rng in opts
    requires Model(balloon, "virtio-balloon", d.architecture) && Model(rng, "virtio-rng", d.architecture)
    requires backend.Listed? && backend.name == "-object" && backend.head == Some("rng-random")
    requires Sets(backend, "id", "gk_rng_backend0") && Sets(backend, "filename", "/dev/urandom")
      && Sets(rng, "rng", "gk_rng_backend0")
    ensures SaysExtras(opts, d)
  {
  }

  lemma RngSets(o: Opt, dev: Opt, d: Definition)
    requires o == Listed("-object", Some("rng-random"), [("id", "gk_rng_backend0"), ("filename", "/dev/urandom")])
    requires dev == Device("virtio-rng" + Bus(d.architecture), [("rng", "gk_rng_backend0"), ("id", "gk_rng0")])
    ensures Sets(o, "id", "gk_rng_backend0") && Sets(o, "filename", "/dev/urandom") && Sets(dev, "rng", "gk_rng_backend0")
  {
    assert o.props[0] == ("id", "gk_rng_backend0") && o.props[1] == ("filename", "/dev/urandom");
    assert dev.props[0] == ("rng", "gk_rng_backend0");
  }

  /** The built options say what the definition asks for. */
  lemma OptionsSay(d: Definition, t: Texts, daemonize: bool)
    ensures Says(Options(d, t, daemonize), d, t, daemonize)
  {
    ExtrasSay(d, t, daemonize);
    BaseSays(d, t, daemonize);
    MachineSays(d, t, daemonize);
    SaysDevices(d, t, daemonize);
    SaysLinks(d, t, daemonize);
    SaysFlash(d, t, daemonize);
  }

  lemma Sections(d: Definition, t: Texts, daemonize: bool)
    ensures var opts := Options(d, t, daemonize);
            && DiskOpt(d, t.image) in opts && (forall o :: o in BusOpts(d) ==> o in opts)
              && (forall o :: o in NetworkOpts(d) ==> o in opts)
            && (d.vsockCid.Some? ==> VsockOpt(d, d.vsockCid.value) in opts)
  {
    SectionsOf(d, t, daemonize, DiskOpt(d, t.image));
    forall o | o in BusOpts(d) || o in NetworkOpts(d) ensures o in Options(d, t, daemonize) {
      SectionsOf(d, t, daemonize, o);
    }
    if d.vsockCid.Some? {
      assert TailOpts(d)[3] == VsockOpt(d, d.vsockCid.value);
      SectionsOf(d, t, daemonize, VsockOpt(d, d.vsockCid.value));
    }
  }

  lemma UefiAt(d: Definition, t: Texts, daemonize: bool)
    ensures var opts, at, uefi := Options(d, t, daemonize), |BaseOpts(d, t.qmp, t.pid, daemonize)|, UefiOpts(t.uefi);
            at + |uefi| <= |opts| && opts[at..at + |uefi|] == uefi
  {
  }

  /** Every built argument list whose listed paths have no comma reads back, as QEMU splits it, as
      options that say what the definition asks for. */
  lemma ArgsSay(d: Definition, qmp: Path, pid: Path, daemonize: bool, present: set<Path>) returns (opts: seq<Opt>)
    requires Buildable(d, qmp, pid, present) && ListedPathsCommaFree(TextsOf(d, qmp, pid))
    ensures ReadArgs(RenderAll(Options(d, TextsOf(d, qmp, pid), daemonize))) == Some(opts)
    ensures Says(opts, d, TextsOf(d, qmp, pid), daemonize)
    ensures TextsOf(d, qmp, pid) == Texts(qmp.text, pid.text, d.image.text,
                                          match d.uefi { case None => None case Some(u) => Some((u.code.text, u.vars.text)) })
  {
    opts := Options(d, TextsOf(d, qmp, pid), daemonize);
    OptionsReadBack(d, qmp, pid, daemonize, present);
    OptionsSay(d, TextsOf(d, qmp, pid), daemonize);
  }

  // ---- The list determines the definition ------------------------------------------------------

  lemma BaseDetermines(opts: seq<Opt>, d: Definition, t: Texts, x: bool, e: Definition, u: Texts, y: bool)
    requires SaysBase(opts, d, t, x) && SaysBase(opts, e, u, y)
    ensures d.name == e.name && d.vcpus == e.vcpus && d.memoryMb == e.memoryMb && t.pid == u.pid && x == y
  {
    assert Valued("-name", d.name) == Valued("-name", e.name);
    assert Valued("-pidfile", t.pid) == Valued("-pidfile", u.pid);
    var s :| Only(opts, Valued("-smp", s)) && Number(s, d.vcpus);
    var s' :| Only(opts, Valued("-smp", s')) && Number(s', e.vcpus);
    assert Valued("-smp", s) == Valued("-smp", s');
    var m :| Only(opts, Valued("-m", m)) && Number(m, d.memoryMb);
    var m' :| Only(opts, Valued("-m", m')) && Number(m', e.memoryMb);
    assert Valued("-m", m) == Valued("-m", m');
  }

  lemma MachineDetermines(opts: seq<Opt>, d: Definition, t: Texts, e: Definition, u: Texts)
    requires SaysMachine(opts, d, t) && SaysMachine(opts, e, u)
    ensures d.architecture == e.architecture && t.qmp == u.qmp
  {
    var o: Opt :| Only(opts, o) && o.Listed? && o.name == "-machine" && Sets(o, "accel", "kvm")
                  && o.head == Some(if d.architecture.X86_64? then "q35" else "virt");
    var o': Opt :| Only(opts, o') && o'.Listed? && o'.name == "-machine" && Sets(o', "accel", "kvm")
                   && o'.head == Some(if e.architecture.X86_64? then "q35" else "virt");
    assert o == o' && "q35"[0] != "virt"[0];
    var q: Opt :| Only(opts, q) && q.Listed? && q.name == "-qmp" && q.head == Some("unix:" + t.qmp)
                  && Sets(q, "server", "on") && Sets(q, "wait", "off");
    var q': Opt :| Only(opts, q') && q'.Listed? && q'.name == "-qmp" && q'.head == Some("unix:" + u.qmp)
                   && Sets(q', "server", "on") && Sets(q', "wait", "off");
    assert q == q';
    assert ("unix:" + t.qmp)[5..] == t.qmp && ("unix:" + u.qmp)[5..] == u.qmp;
  }

  lemma FormatsDiffer(f: ImageFormat, g: ImageFormat)
    requires FormatText(f) == FormatText(g)
    ensures f == g
  {
  }

  lemma DiskDetermines(opts: seq<Opt>, d: Definition, t: Texts, e: Definition, u: Texts)
    requires SaysDisk(opts, d, t) && SaysDisk(opts, e, u)
    ensures t.image == u.image && d.imageFormat == e.imageFormat && d.readonly == e.readonly
  {
    var o := DiskOf(opts, d, t);
    var o' := DiskOf(opts, e, u);
    assert o == o';
    assert ("file", t.image) in o.props && ("file", u.image) in o.props;
    assert ("format", FormatText(d.imageFormat)) in o.props && ("format", FormatText(e.imageFormat)) in o.props;
    FormatsDiffer(d.imageFormat, e.imageFormat);
    if d.readonly || e.readonly {
      assert ("readonly", "on") in o.props;
    }
  }

  lemma DiskOf(opts: seq<Opt>, d: Definition, t: Texts) returns (o: Opt)
    requires SaysDisk(opts, d, t)
    ensures o.name == "-drive" && OnlyWith(opts, o, "id", "gk_disk0") && IsDisk(o, d, t)
  {
    o :| o.name == "-drive" && OnlyWith(opts, o, "id", "gk_disk0") && IsDisk(o, d, t);
  }

  lemma BusDetermines(opts: seq<Opt>, d: Definition, e: Definition)
    requires SaysBus(opts, d) && SaysBus(opts, e) && d.architecture == e.architecture
    ensures d.diskBus == e.diskBus
  {
    var o := DeviceOf(opts, d);
    var o' := DeviceOf(opts, e);
    assert o == o' && "scsi-hd"[0] != "virtio-blk"[0];
  }

  lemma DeviceOf(opts: seq<Opt>, d: Definition) returns (o: Opt)
    requires SaysBus(opts, d)
    ensures OnlyWith(opts, o, "drive", "gk_disk0") && o.name == "-device" && o.Listed?
    ensures if d.diskBus.VirtioBlk? then Model(o, "virtio-blk", d.architecture) else o.head == Some("scsi-hd")
  {
    o :| OnlyWith(opts, o, "drive", "gk_disk0") && OnBus(opts, o, d);
  }

  lemma BackendOf(opts: seq<Opt>, d: Definition) returns (o: Opt)
    requires SaysNetwork(opts, d) && !d.network.NoNetwork?
    ensures Only(opts, o) && Backend(o, if d.network.User? then "user" else "tap")
    ensures d.network.User? ==> Forwards(o, d.network.sshPort)
    ensures d.network.Tap? ==> Sets(o, "ifname", d.network.ifname) && Sets(o, "vhost", if d.network.vhost then "on" else "off")
  {
    match d.network
    case User(port) => o :| Only(opts, o) && Backend(o, "user") && Forwards(o, port);
    case Tap(ifname, vhost) => o :| Only(opts, o) && Backend(o, "tap") && TapSettings(o, ifname, vhost);
  }

  lemma SameForward(o: Opt, p: Option<nat>, q: Option<nat>)
    requires Forwards(o, p) && Forwards(o, q)
    ensures p == q
  {
    if p.Some? && q.Some? {
      var s :| Sets(o, "hostfwd", "tcp:127.0.0.1:" + s + "-:22") && Number(s, p.value);
      var s' :| Sets(o, "hostfwd", "tcp:127.0.0.1:" + s' + "-:22") && Number(s', q.value);
      var a, b := "tcp:127.0.0.1:" + s + "-:22", "tcp:127.0.0.1:" + s' + "-:22";
      assert ("hostfwd", a) in o.props && ("hostfwd", b) in o.props;
      assert a == b && |s| == |a| - 18 == |s'|;
      assert s == a[14..14 + |s|] == b[14..14 + |s'|] == s';
    }
  }

  lemma NetworkDetermines(opts: seq<Opt>, d: Definition, e: Definition)
    requires SaysNetwork(opts, d) && SaysNetwork(opts, e)
    ensures d.network == e.network
  {
    if !d.network.NoNetwork? {
      var o := BackendOf(opts, d);
      if !e.network.NoNetwork? {
        var o' := BackendOf(opts, e);
        assert o == o' && "user"[0] != "tap"[0];
        if d.network.User? {
          SameForward(o, d.network.sshPort, e.network.sshPort);
        } else {
          assert ("ifname", d.network.ifname) in o.props && ("ifname", e.network.ifname) in o.props;
          SameSwitch(o, "vhost", d.network.vhost, e.network.vhost);
        }
      }
    } else if !e.network.NoNetwork? {
      var o' := BackendOf(opts, e);
    }
  }

  lemma SameSwitch(o: Opt, key: string, x: bool, y: bool)
    requires Sets(o, key, if x then "on" else "off") && Sets(o, key, if y then "on" else "off")
    ensures x == y
  {
    assert (key, if x then "on" else "off") in o.props && (key, if y then "on" else "off") in o.props;
    assert |"on"| != |"off"|;
  }

  lemma CidOf(opts: seq<Opt>, d: Definition) returns (o: Opt, s: string)
    requires SaysVsock(opts, d) && d.vsockCid.Some?
    ensures OnlyMention(opts, o, "guest-cid") && Sets(o, "guest-cid", s) && Number(s, d.vsockCid.value) && Mentions(o, "guest-cid")
  {
    o, s :| OnlyMention(opts, o, "guest-cid") && Sets(o, "guest-cid", s) && Number(s, d.vsockCid.value)
            && Model(o, "vhost-vsock", d.architecture);
    assert ("guest-cid", s) in o.props;
  }

  lemma VsockDetermines(opts: seq<Opt>, d: Definition, e: Definition)
    requires SaysVsock(opts, d) && SaysVsock(opts, e)
    ensures d.vsockCid == e.vsockCid
  {
    if d.vsockCid.Some? {
      var o, s := CidOf(opts, d);
      if e.vsockCid.Some? {
        var o', s' := CidOf(opts, e);
        assert o == o' && ("guest-cid", s') in o.props;
      }
    } else if e.vsockCid.Some? {
      var o', s' := CidOf(opts, e);
    }
  }

  lemma FlashOf(opts: seq<Opt>, t: Texts) returns (o: Opt, v: Opt)
    requires SaysFirmware(opts, t) && t.uefi.Some?
    ensures o in opts && v in opts && Firmware(o, t.uefi.value.0) && Firmware(v, t.uefi.value.1)
    ensures Sets(o, "readonly", "on") && !Mentions(v, "readonly")
    ensures forall x :: x in opts && Sets(x, "if", "pflash") ==> x == o || x == v
  {
    var (code, vars) := t.uefi.value;
    var i: nat, j: nat :| i < j < |opts|
        && (forall o: Opt :: o in opts && Sets(o, "if", "pflash") ==> o == opts[i] || o == opts[j])
        && Firmware(opts[i], code) && Sets(opts[i], "readonly", "on")
        && Firmware(opts[j], vars) && !Mentions(opts[j], "readonly");
    o, v := opts[i], opts[j];
  }

  lemma SameFile(o: Opt, a: string, b: string)
    requires Firmware(o, a) && Firmware(o, b)
    ensures a == b
  {
    assert ("file", a) in o.props && ("file", b) in o.props;
  }

  lemma FirmwareDetermines(opts: seq<Opt>, t: Texts, u: Texts)
    requires SaysFirmware(opts, t) && SaysFirmware(opts, u)
    ensures t.uefi == u.uefi
  {
    if t.uefi.Some? {
      var o, v := FlashOf(opts, t);
      if u.uefi.Some? {
        var o', v' := FlashOf(opts, u);
        ReadonlyMentioned(o);
        ReadonlyMentioned(o');
        assert o == o' && v == v';
        SameFile(o, t.uefi.value.0, u.uefi.value.0);
        SameFile(v, t.uefi.value.1, u.uefi.value.1);
      }
    } else if u.uefi.Some? {
      var o', v' := FlashOf(opts, u);
    }
  }

  lemma ReadonlyMentioned(o: Opt)
    requires Sets(o, "readonly", "on")
    ensures Mentions(o, "readonly")
  {
    assert ("readonly", "on") in o.props;
  }

  /** What of a definition reaches QEMU. */
  ghost predicate SameForQemu(d: Definition, t: Texts, x: bool, e: Definition, u: Texts, y: bool) {
    && d.name == e.name && d.vcpus == e.vcpus && d.memoryMb == e.memoryMb && d.architecture == e.architecture
    && d.imageFormat == e.imageFormat && d.readonly == e.readonly && d.diskBus == e.diskBus
    && d.network == e.network && d.vsockCid == e.vsockCid && t == u && x == y
  }

  /** Option lists that say the same come from definitions that agree on all that reaches QEMU. */
  lemma SayingDetermines(opts: seq<Opt>, d: Definition, t: Texts, x: bool, e: Definition, u: Texts, y: bool)
    requires Says(opts, d, t, x) && Says(opts, e, u, y)
    ensures SameForQemu(d, t, x, e, u, y)
  {
    BaseDetermines(opts, d, t, x, e, u, y);
    MachineDetermines(opts, d, t, e, u);
    DiskDetermines(opts, d, t, e, u);
    BusDetermines(opts, d, e);
    NetworkDetermines(opts, d, e);
    VsockDetermines(opts, d, e);
    FirmwareDetermines(opts, t, u);
  }

  /** Two builds with the same argument list and no comma in a listed path agree on all that
      reaches QEMU. */
  lemma ArgsDetermine(d: Definition, e: Definition, qmp: Path, pid: Path, qmp': Path, pid': Path, x: bool, y: bool,
                      present: set<Path>)
    requires Buildable(d, qmp, pid, present) && ListedPathsCommaFree(TextsOf(d, qmp, pid))
    requires Buildable(e, qmp', pid', present) && ListedPathsCommaFree(TextsOf(e, qmp', pid'))
    requires RenderAll(Options(d, TextsOf(d, qmp, pid), x)) == RenderAll(Options(e, TextsOf(e, qmp', pid'), y))
    ensures SameForQemu(d, TextsOf(d, qmp, pid), x, e, TextsOf(e, qmp', pid'), y)
  {
    var opts := ArgsSay(d, qmp, pid, x, present);
    var opts' := ArgsSay(e, qmp', pid', y, present);
    SayingDetermines(opts, d, TextsOf(d, qmp, pid), x, e, TextsOf(e, qmp', pid'), y);
  }
}
