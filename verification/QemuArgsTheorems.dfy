/** What holds of every QEMU command line the builder produces. */
module QemuArgsTheorems {
  import opened Wrappers
  import opened OptionLists
  import opened Text
  import opened Shell
  import opened VmDefinition
  import opened QemuArgs

  // ---- No argument is lost when the command is printed ---------------------

  /** Renders to non-empty arguments only. */
  ghost predicate Solid(o: Opt) {
    o.name != "" && (o.Valued? ==> o.value != "") && (o.Listed? ==> o.props != [])
  }

  lemma {:induction false} JoinNotEmpty(parts: seq<string>, sep: char)
    requires parts != [] && parts[|parts| - 1] != ""
    ensures Join(parts, sep) != ""
  {
    if |parts| > 1 {
      JoinNotEmpty(parts[1..], sep);
    }
  }

  lemma SolidRenders(o: Opt)
    requires Solid(o)
    ensures "" !in Render(o)
  {
    if o.Listed? {
      var parts := Parts(o.head, o.props);
      assert parts[|parts| - 1] == Items(o.props)[|o.props| - 1];
      JoinNotEmpty(parts, ',');
    }
  }

  lemma {:induction false} RenderedArgument(opts: seq<Opt>, arg: string)
    ensures arg in RenderAll(opts) <==> exists i :: 0 <= i < |opts| && arg in Render(opts[i])
  {
    if opts != [] {
      RenderedArgument(opts[1..], arg);
      assert forall i :: 1 <= i < |opts| ==> opts[i] == opts[1..][i - 1];
    }
  }

  lemma OptionsSolid(d: Definition, t: Texts, daemonize: bool, o: Opt)
    requires ValidName(d.name) && o in Options(d, t, daemonize)
    ensures Solid(o) || o == Valued("-pidfile", "")
  {
    SectionsOf(d, t, daemonize, o);
    if o in BaseOpts(d, t.qmp, t.pid, daemonize) {
      BaseSolid(d, t, daemonize, o);
    } else if o in NetworkOpts(d) {
      NetworkSolid(d, o);
    } else if o in TailOpts(d) {
      TailSolid(d, o);
    }
  }

  lemma BaseSolid(d: Definition, t: Texts, daemonize: bool, o: Opt)
    requires ValidName(d.name) && o in BaseOpts(d, t.qmp, t.pid, daemonize)
    ensures Solid(o) || o == Valued("-pidfile", "")
  {
  }

  lemma NetworkSolid(d: Definition, o: Opt)
    requires o in NetworkOpts(d)
    ensures Solid(o)
  {
  }

  lemma TailSolid(d: Definition, o: Opt)
    requires o in TailOpts(d)
    ensures Solid(o)
  {
  }

  /** The only argument that can be empty is the pid file's path. */
  lemma EmptyArgument(d: Definition, t: Texts, daemonize: bool)
    requires ValidName(d.name)
    ensures "" in RenderAll(Options(d, t, daemonize)) <==> t.pid == ""
  {
    var opts := Options(d, t, daemonize);
    RenderedArgument(opts, "");
    assert opts[6] == Valued("-pidfile", t.pid);
    forall i | 0 <= i < |opts| && "" in Render(opts[i])
      ensures t.pid == ""
    {
      OptionsSolid(d, t, daemonize, opts[i]);
      if Solid(opts[i]) {
        SolidRenders(opts[i]);
      } else {
        PidOption(d, t, daemonize);
      }
    }
  }

  lemma PidOption(d: Definition, t: Texts, daemonize: bool)
    requires Valued("-pidfile", "") in Options(d, t, daemonize)
    ensures t.pid == ""
  {
    SectionsOf(d, t, daemonize, Valued("-pidfile", ""));
  }

  /** `printable_qemu_command`: the binary and its arguments. */
  function Command(d: Definition, t: Texts): seq<string> {
    [QemuBinary(d.architecture)] + RenderAll(Options(d, t, true))
  }

  /** The printed command reads back, under the shell's quoting rules, as the
      binary followed by its arguments, exactly when the pid file has a name. */
  lemma PrintedCommandRoundTrip(d: Definition, qmp: Path, pid: Path, present: set<Path>)
    requires Buildable(d, qmp, pid, present)
    ensures var command := Command(d, TextsOf(d, qmp, pid));
            ReadCommand(Print(command)) == Some(command) <==> pid.text != ""
  {
    var t := TextsOf(d, qmp, pid);
    var command := Command(d, t);
    EmptyArgument(d, t, true);
    assert command[0] == QemuBinary(d.architecture) && command[1..] == RenderAll(Options(d, t, true));
    assert "" in command <==> "" in command[1..];
    PrintedCommandReadsBack(command);
  }

  // ---- Option strings read back as their keys and values -------------------

  /** The switches whose value is a list; only `-drive` has no leading item. */
  predicate TakesList(name: string) {
    name in ["-machine", "-qmp", "-drive", "-device", "-netdev", "-object"]
  }

  function ReadItem(item: string): (string, string) {
    SplitOnce(item, '=')
  }

  function ReadItems(items: seq<string>): (r: seq<(string, string)>)
    ensures |r| == |items| && forall i :: 0 <= i < |items| ==> r[i] == ReadItem(items[i])
  {
    seq(|items|, i requires 0 <= i < |items| => ReadItem(items[i]))
  }

  function ReadList(name: string, s: string): Opt {
    var parts := SplitList(s);
    if name == "-drive" then Listed(name, None, ReadItems(parts))
    else Listed(name, Some(parts[0]), ReadItems(parts[1..]))
  }

  /** Reading a command line the way QEMU does: switches and their values in turn, lists at
      single commas. */
  function ReadArgs(args: seq<string>): Option<seq<Opt>> {
    if args == [] then Some([])
    else if args[0] == "-daemonize" then
      match ReadArgs(args[1..]) { case None => None case Some(rest) => Some([Flag(args[0])] + rest) }
    else if |args| == 1 then None
    else
      var o := if TakesList(args[0]) then ReadList(args[0], args[1]) else Valued(args[0], args[1]);
      match ReadArgs(args[2..]) { case None => None case Some(rest) => Some([o] + rest) }
  }

  /** Built the way the builder does: keys without `=`, and a leading item except for `-drive`. */
  ghost predicate Shaped(o: Opt) {
    match o
    case Flag(name) => name == "-daemonize"
    case Valued(name, _) => name != "-daemonize" && !TakesList(name)
    case Listed(name, head, props) =>
      TakesList(name) && head.None? == (name == "-drive") && head != Some("") && props != []
      && forall i :: 0 <= i < |props| ==> '=' !in props[i].0
  }

  ghost predicate CommaFree(o: Opt) {
    o.Listed? ==> forall p :: p in Parts(o.head, o.props) ==> ',' !in p
  }

  /** The option as it reads after printing. */
  function Reread(o: Opt): Opt {
    if o.Listed? then ReadList(o.name, Join(Parts(o.head, o.props), ',')) else o
  }

  lemma ItemsReadBack(props: seq<(string, string)>)
    requires forall i :: 0 <= i < |props| ==> '=' !in props[i].0
    ensures ReadItems(Items(props)) == props
  {
    forall i | 0 <= i < |props|
      ensures ReadItem(Items(props)[i]) == props[i]
    {
      SplitOnceJoined(props[i].0, props[i].1, '=');
    }
  }

  lemma CleanReads(o: Opt)
    requires o.Listed? && Shaped(o) && CommaFree(o)
    ensures Reread(o) == o
  {
    var parts := Parts(o.head, o.props);
    ListSplitsBack(parts);
    ItemsReadBack(o.props);
    if o.name == "-drive" {
      assert parts == Items(o.props);
    } else {
      assert parts[1..] == Items(o.props);
    }
  }

  lemma {:induction false} SplitOnceCounts(s: string)
    ensures Commas(SplitOnce(s, '=').0) + Commas(SplitOnce(s, '=').1) == Commas(s)
  {
    if s != "" && s[0] != '=' {
      SplitOnceCounts(s[1..]);
      var (a, b) := SplitOnce(s[1..], '=');
      assert ([s[0]] + a)[1..] == a;
    }
  }

  /** Read as keys and values and printed again, items keep their commas. */
  lemma {:induction false} ItemsCount(items: seq<string>)
    ensures Total(Items(ReadItems(items))) == Total(items)
  {
    if items != [] {
      ItemsCount(items[1..]);
      var (key, value) := ReadItem(items[0]);
      assert Items(ReadItems(items))[1..] == Items(ReadItems(items[1..]));
      SplitOnceCounts(items[0]);
      CommasAppend(key + "=", value);
      CommasAppend(key, "=");
      assert "="[1..] == "";
    }
  }

  lemma TotalWithHead(head: string, items: seq<string>)
    ensures Total([head] + items) == Commas(head) + Total(items)
  {
    assert ([head] + items)[1..] == items;
  }

  lemma ReadsClean(o: Opt)
    requires o.Listed? && Shaped(o) && Reread(o) == o
    ensures CommaFree(o)
  {
    var parts := Parts(o.head, o.props);
    var pieces := SplitList(Join(parts, ','));
    if o.name == "-drive" {
      ItemsCount(pieces);
      assert parts == Items(o.props);
    } else {
      ItemsCount(pieces[1..]);
      TotalWithHead(pieces[0], pieces[1..]);
      TotalWithHead(o.head.value, Items(o.props));
      assert pieces == [pieces[0]] + pieces[1..];
    }
    SameCommasMeansNone(parts);
  }

  lemma ReadOne(o: Opt, rest: seq<string>)
    requires Shaped(o)
    ensures var r := ReadArgs(Render(o) + rest);
            if ReadArgs(rest).None? then r.None? else r == Some([Reread(o)] + ReadArgs(rest).value)
  {
    var args := Render(o) + rest;
    if o.Flag? {
      assert args[0] == o.name && args[1..] == rest;
    } else {
      assert !TakesList("-daemonize");
      assert args[0] == o.name != "-daemonize";
      assert |args| >= 2 && args[1] == Render(o)[1] && args[2..] == rest;
    }
  }

  lemma {:induction false} ReadRendered(opts: seq<Opt>)
    requires forall o :: o in opts ==> Shaped(o)
    ensures ReadArgs(RenderAll(opts)).Some?
    ensures var r := ReadArgs(RenderAll(opts)).value;
            |r| == |opts| && forall i :: 0 <= i < |opts| ==> r[i] == Reread(opts[i])
  {
    if opts != [] {
      ReadRendered(opts[1..]);
      ReadOne(opts[0], RenderAll(opts[1..]));
    }
  }

  lemma ReadsBackExactly(opts: seq<Opt>)
    requires forall o :: o in opts ==> Shaped(o)
    ensures ReadArgs(RenderAll(opts)) == Some(opts) <==> forall o :: o in opts ==> CommaFree(o)
  {
    ReadRendered(opts);
    var r := ReadArgs(RenderAll(opts)).value;
    forall o | o in opts && o.Listed?
      ensures Reread(o) == o <==> CommaFree(o)
    {
      if CommaFree(o) { CleanReads(o); }
      if Reread(o) == o { ReadsClean(o); }
    }
    if r == opts {
      forall o | o in opts ensures CommaFree(o) {
        var i :| 0 <= i < |opts| && opts[i] == o;
        assert r[i] == Reread(o);
      }
    } else {
      assert exists i :: 0 <= i < |opts| && r[i] != opts[i];
    }
  }

  /** The paths that end up inside lists. */
  ghost predicate ListedPathsCommaFree(t: Texts) {
    ',' !in t.qmp && ',' !in t.image && (t.uefi.Some? ==> ',' !in t.uefi.value.0 && ',' !in t.uefi.value.1)
  }

  lemma SectionsOf(d: Definition, t: Texts, daemonize: bool, o: Opt)
    ensures o in Options(d, t, daemonize) <==>
            o in BaseOpts(d, t.qmp, t.pid, daemonize) || o in UefiOpts(t.uefi) || o == DiskOpt(d, t.image)
            || o in BusOpts(d) || o in NetworkOpts(d) || o in TailOpts(d)
  {
  }

  lemma BaseShaped(d: Definition, t: Texts, daemonize: bool, o: Opt)
    requires o in BaseOpts(d, t.qmp, t.pid, daemonize)
    ensures Shaped(o)
  {
  }

  lemma UefiShaped(t: Texts, o: Opt)
    requires o in UefiOpts(t.uefi)
    ensures Shaped(o)
  {
  }

  lemma DiskShaped(d: Definition, t: Texts)
    ensures Shaped(DiskOpt(d, t.image))
  {
  }

  lemma BusShaped(d: Definition, o: Opt)
    requires o in BusOpts(d)
    ensures Shaped(o)
  {
  }

  lemma NetworkShaped(d: Definition, o: Opt)
    requires o in NetworkOpts(d)
    ensures Shaped(o)
  {
  }

  lemma TailShaped(d: Definition, o: Opt)
    requires o in TailOpts(d)
    ensures Shaped(o)
  {
  }

  lemma OptionsShaped(d: Definition, t: Texts, daemonize: bool, o: Opt)
    requires o in Options(d, t, daemonize)
    ensures Shaped(o)
  {
    SectionsOf(d, t, daemonize, o);
    if o in BaseOpts(d, t.qmp, t.pid, daemonize) { BaseShaped(d, t, daemonize, o); }
    else if o in UefiOpts(t.uefi) { UefiShaped(t, o); }
    else if o == DiskOpt(d, t.image) { DiskShaped(d, t); }
    else if o in BusOpts(d) { BusShaped(d, o); }
    else if o in NetworkOpts(d) { NetworkShaped(d, o); }
    else { TailShaped(d, o); }
  }

  /** Comma-freedom key by key and value by value. */
  ghost predicate PiecesCommaFree(o: Opt) {
    o.Listed? ==>
      && (o.head.Some? ==> ',' !in o.head.value)
      && forall i :: 0 <= i < |o.props| ==> ',' !in o.props[i].0 && ',' !in o.props[i].1
  }

  lemma CommaFreePieces(o: Opt)
    ensures CommaFree(o) <==> PiecesCommaFree(o)
  {
    if o.Listed? {
      var parts := Parts(o.head, o.props);
      forall i | 0 <= i < |o.props|
        ensures Items(o.props)[i] in parts
        ensures ',' !in Items(o.props)[i] <==> ',' !in o.props[i].0 && ',' !in o.props[i].1
      {
      }
      if o.head.Some? {
        assert parts[0] == o.head.value;
      }
    }
  }

  lemma BaseCommas(d: Definition, t: Texts, daemonize: bool)
    ensures (forall o :: o in BaseOpts(d, t.qmp, t.pid, daemonize) ==> PiecesCommaFree(o)) <==> ',' !in t.qmp
  {
    var opts := BaseOpts(d, t.qmp, t.pid, daemonize);
    assert opts[5] in opts && opts[5].head.value == "unix:" + t.qmp;
    assert PiecesCommaFree(opts[5]) <==> ',' !in t.qmp;
    assert PiecesCommaFree(opts[1]);
  }

  lemma UefiCommas(t: Texts)
    ensures (forall o :: o in UefiOpts(t.uefi) ==> PiecesCommaFree(o))
            <==> (t.uefi.Some? ==> ',' !in t.uefi.value.0 && ',' !in t.uefi.value.1)
  {
    if t.uefi.Some? {
      var opts := UefiOpts(t.uefi);
      assert opts[0] in opts && opts[0].props[3] == ("file", t.uefi.value.0);
      assert opts[1] in opts && opts[1].props[2] == ("file", t.uefi.value.1);
      assert PiecesCommaFree(opts[0]) <==> ',' !in t.uefi.value.0;
      assert PiecesCommaFree(opts[1]) <==> ',' !in t.uefi.value.1;
    }
  }

  lemma DiskCommas(d: Definition, t: Texts)
    ensures PiecesCommaFree(DiskOpt(d, t.image)) <==> ',' !in t.image
  {
    assert DiskOpt(d, t.image).props[1] == ("file", t.image);
  }

  lemma BusCommas(d: Definition, o: Opt)
    requires o in BusOpts(d)
    ensures PiecesCommaFree(o)
  {
  }

  lemma NetworkCommas(d: Definition, o: Opt)
    requires o in NetworkOpts(d)
    requires d.network.Tap? ==> ValidToken(d.network.ifname)
    ensures PiecesCommaFree(o)
  {
    NicCommas(d);
    match d.network
    case User(port) => UserCommas(port);
    case _ =>
  }

  lemma NicCommas(d: Definition)
    ensures PiecesCommaFree(Nic(d))
  {
  }

  lemma UserCommas(port: Option<nat>)
    ensures var forward := if port.Some? then [("hostfwd", "tcp:127.0.0.1:" + Decimal(port.value) + "-:22")] else [];
            PiecesCommaFree(Listed("-netdev", Some("user"), [("id", "gk_net0")] + forward))
  {
  }

  lemma TailCommas(d: Definition, o: Opt)
    requires o in TailOpts(d)
    ensures PiecesCommaFree(o)
  {
    BalloonCommas(d);
    RngBackendCommas();
    RngCommas(d);
    if d.vsockCid.Some? {
      VsockCommas(d, d.vsockCid.value);
    }
  }

  lemma BalloonCommas(d: Definition)
    ensures PiecesCommaFree(Device("virtio-balloon" + Bus(d.architecture), [("id", "gk_balloon0")]))
  {
  }

  lemma RngBackendCommas()
    ensures PiecesCommaFree(Listed("-object", Some("rng-random"), [("id", "gk_rng_backend0"), ("filename", "/dev/urandom")]))
  {
  }

  lemma RngCommas(d: Definition)
    ensures PiecesCommaFree(Device("virtio-rng" + Bus(d.architecture), [("rng", "gk_rng_backend0"), ("id", "gk_rng0")]))
  {
  }

  lemma VsockCommas(d: Definition, cid: nat)
    ensures PiecesCommaFree(Device("vhost-vsock" + Bus(d.architecture), [("guest-cid", Decimal(cid)), ("id", "gk_vsock0")]))
  {
  }

  /** Every option string splits back into its keys and values exactly when no
      path inside one contains a comma; the pid file's path may. */
  lemma OptionsReadBack(d: Definition, qmp: Path, pid: Path, daemonize: bool, present: set<Path>)
    requires Buildable(d, qmp, pid, present)
    ensures var t := TextsOf(d, qmp, pid);
            ReadArgs(RenderAll(Options(d, t, daemonize))) == Some(Options(d, t, daemonize)) <==> ListedPathsCommaFree(t)
  {
    var t := TextsOf(d, qmp, pid);
    var opts := Options(d, t, daemonize);
    forall o | o in opts ensures Shaped(o) { OptionsShaped(d, t, daemonize, o); }
    ReadsBackExactly(opts);
    forall o ensures CommaFree(o) <==> PiecesCommaFree(o) { CommaFreePieces(o); }
    BaseCommas(d, t, daemonize);
    UefiCommas(t);
    DiskCommas(d, t);
    forall o | o in BusOpts(d) ensures PiecesCommaFree(o) { BusCommas(d, o); }
    forall o | o in NetworkOpts(d) ensures PiecesCommaFree(o) { NetworkCommas(d, o); }
    forall o | o in TailOpts(d) ensures PiecesCommaFree(o) { TailCommas(d, o); }
    forall o ensures o in opts <==>
            o in BaseOpts(d, t.qmp, t.pid, daemonize) || o in UefiOpts(t.uefi) || o == DiskOpt(d, t.image)
            || o in BusOpts(d) || o in NetworkOpts(d) || o in TailOpts(d)
    {
      SectionsOf(d, t, daemonize, o);
    }
  }
}
