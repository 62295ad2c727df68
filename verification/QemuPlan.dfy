/** The command a plan prints, with the socket and pid file of its VM (src/vm.rs). */
module QemuPlan {
  import opened Wrappers
  import opened Shell
  import opened VmDefinition
  import opened VmLifecycle
  import opened QemuArgs
  import opened QemuArgsTheorems

  /** `plan_from_boot` prints the command with the VM's own runtime files. */
  function PlannedCommand(d: Definition, st: Store): seq<string>
    requires PathsAreText(d, Utf8(PathOf(st, QmpSocket, d.name)), Utf8(PathOf(st, PidFile, d.name)))
  {
    Command(d, TextsOf(d, Utf8(PathOf(st, QmpSocket, d.name)), Utf8(PathOf(st, PidFile, d.name))))
  }

  /** Every command a plan prints reads back, under the shell's quoting rules, as the binary
      followed by its arguments. */
  lemma PlannedCommandRoundTrip(d: Definition, st: Store, present: set<Path>)
    requires Buildable(d, Utf8(PathOf(st, QmpSocket, d.name)), Utf8(PathOf(st, PidFile, d.name)), present)
    ensures ReadCommand(Print(PlannedCommand(d, st))) == Some(PlannedCommand(d, st))
    ensures PlannedCommand(d, st)[0] == if d.architecture.X86_64? then "qemu-system-x86_64" else "qemu-system-aarch64"
  {
    assert |PathOf(st, PidFile, d.name)| >= 5;
    PrintedCommandRoundTrip(d, Utf8(PathOf(st, QmpSocket, d.name)), Utf8(PathOf(st, PidFile, d.name)), present);
  }

  /** A small VM on this image. */
  function Small(image: string): Definition {
    Definition(1, "vm", Utf8(image), Raw, X86_64, 1024, 1, VirtioBlk, NoNetwork, false, None, false, None, 0.0)
  }

  lemma SmallBuilds(image: string, qmp: string, pid: string)
    ensures Buildable(Small(image), Utf8(qmp), Utf8(pid), {Utf8(image)})
  {
    assert ValidName("vm");
  }

  /** A comma in the image's path: the command is built, and its drive does not read back. */
  lemma CommaInPath()
    ensures var d, qmp, pid := Small("/vm/a,b.img"), Utf8("/run/vm.qmp"), Utf8("/run/vm.pid");
            && Buildable(d, qmp, pid, {d.image})
            && ReadArgs(RenderAll(Options(d, TextsOf(d, qmp, pid), true))) != Some(Options(d, TextsOf(d, qmp, pid), true))
  {
    var d, qmp, pid := Small("/vm/a,b.img"), Utf8("/run/vm.qmp"), Utf8("/run/vm.pid");
    SmallBuilds("/vm/a,b.img", "/run/vm.qmp", "/run/vm.pid");
    assert "/vm/a,b.img"[5] == ',';
    OptionsReadBack(d, qmp, pid, true, {d.image});
  }
}
