/** Taking back a committed output: move it to a quarantine name, look again, and only then unlink it. */
module LinuxOutputRollback {
  import opened Bytes
  import opened AdapterErrors
  import opened FileWorld
  import opened KernelCalls
  import opened LinuxOutput

  /** `after` extends `before` by steps that give inodes to slots of `dir` only, and link nothing. */
  ghost predicate MovesWithin(before: seq<Step>, after: seq<Step>, dir: Ino) {
    && before <= after
    && forall n :: |before| <= n < |after| ==>
                     !after[n].op.Link? && (Target(after[n].op) != None ==> Target(after[n].op).value.dir == dir)
  }

  /** `v` is `w` without the name `s`; every inode but `i` is as it was. */
  ghost predicate TakesName(w: World, v: World, s: Slot, i: Ino) {
    && v.names == w.names - {s}
    && v.euid == w.euid
    && forall j :: j in w.inodes && j != i ==> j in v.inodes && v.inodes[j] == w.inodes[j]
  }

  method VerifyQuarantined(k: Kernel, c: Committed, quarantine: Slot, length: nat, bytes: seq<u8>) returns (ok: bool)
    requires k.Valid() && c.held in k.world.inodes
    modifies k`interrupts
    ensures ok ==> Published(k.world, quarantine, c.held, c.uid, bytes)
    ensures !k.mayFail && Published(k.world, quarantine, c.held, c.uid, bytes) && length == |bytes| ==> ok
    ensures k.interrupts <= old(k.interrupts)
  {
    ok := VerifyFinalIdentity(k, quarantine, c.held, None, c.uid, length);
    if ok {
      var held := VerifyHeld(k, c.held, bytes, c.uid, 1, OutputRollbackUncertain, OutputRollbackUncertain);
      ok := held.Ok?;
    }
  }

  /** Move whatever the name leads to out of the way, and look at it there. */
  method Quarantine(k: Kernel, c: Committed, bytes: seq<u8>, length: nat, hooks: Hooks) returns (r: Option<Slot>)
    requires k.Valid() && c.held in k.world.inodes
    modifies k`world, k`interrupts, k`log
    ensures k.Valid() && Evolves(old(k.world), k.world) && (old(k.Clean()) ==> k.Clean())
    ensures k.interrupts <= old(k.interrupts)
    ensures MovesWithin(old(k.log), k.log, c.slot.dir)
    ensures r.Some? ==> r.value.dir == c.slot.dir && Published(k.world, r.value, c.held, c.uid, bytes)
    ensures r.Some? && hooks.NoHooks? ==>
              && c.slot in old(k.world).names && r.value !in old(k.world).names
              && old(k.world).names[c.slot] == c.held && k.world == Move(old(k.world), c.slot, r.value)
    ensures hooks.NoHooks? && !k.mayFail && Published(old(k.world), c.slot, c.held, c.uid, bytes) && length == |bytes|
            ==> r.Some?
  {
    ghost var w0 := k.world;
    EvolvesRefl(w0);
    var ok := k.Attempt(hooks, w0);
    if !ok { return None; }
    ghost var w1 := k.world;
    var random := k.RandomName(c.slot.dir, ".rollback-", ".quarantine");
    if random.None? { return None; }
    var quarantine := Slot(c.slot.dir, random.value);
    var moved := k.RenameNoReplace(c.slot, quarantine);
    EvolvesTrans(w0, w1, k.world);
    if !moved.Named? { return None; }
    ok := VerifyQuarantined(k, c, quarantine, length, bytes);
    r := if ok then Some(quarantine) else None;
  }

  /** Every failure is reported as `OutputRollbackUncertain`. */
  method RollbackCommitted(k: Kernel, c: Committed, bytes: seq<u8>, hooks: Hooks) returns (ok: bool)
    requires k.Valid() && c.held in k.mine
    modifies k`world, k`interrupts, k`log
    ensures k.Valid() && Evolves(old(k.world), k.world)
    ensures old(k.Clean()) ==> k.Clean()
    ensures k.interrupts <= old(k.interrupts)
    ensures MovesWithin(old(k.log), k.log, c.slot.dir)
    // success leaves the inode without any name, whatever other processes did at the two stages
    ensures ok ==> Slots(k.world, c.held) == {}
    ensures ok && hooks.NoHooks? ==> TakesName(old(k.world), k.world, c.slot, c.held)
    ensures hooks.NoHooks? && !k.mayFail && Intact(old(k.world), c, bytes) ==> ok
  {
    ghost var w0 := k.world;
    EvolvesRefl(w0);
    var held := k.FStat(c.held);
    if held.None? { return false; }
    var length := held.value.size;
    ok := VerifyFinalIdentity(k, c.slot, c.held, c.metadata, c.uid, length);
    if !ok { return; }
    var quarantine := Quarantine(k, c, bytes, length, hooks);
    if quarantine.None? { return false; }
    ghost var w2 := k.world;
    ok := UnlinkQuarantined(k, c, bytes, length, quarantine.value, hooks);
    EvolvesTrans(w0, w2, k.world);
  }

  /** Look at the quarantined file once more after a stage, and only then unlink it. */
  method UnlinkQuarantined(k: Kernel, c: Committed, bytes: seq<u8>, length: nat, quarantine: Slot, hooks: Hooks)
    returns (ok: bool)
    requires k.Valid() && c.held in k.mine && quarantine.dir == c.slot.dir
    modifies k`world, k`interrupts, k`log
    ensures k.Valid() && Evolves(old(k.world), k.world) && (old(k.Clean()) ==> k.Clean())
    ensures k.interrupts <= old(k.interrupts) && MovesWithin(old(k.log), k.log, c.slot.dir)
    ensures ok ==> Slots(k.world, c.held) == {}
    ensures ok && hooks.NoHooks? ==> TakesName(old(k.world), k.world, quarantine, c.held)
    ensures hooks.NoHooks? && !k.mayFail && Published(old(k.world), quarantine, c.held, c.uid, bytes)
            && length == |bytes|
            ==> ok
  {
    ghost var w0 := k.world;
    EvolvesRefl(w0);
    ok := k.Attempt(hooks, w0);
    if !ok { return; }
    ok := VerifyQuarantined(k, c, quarantine, length, bytes);
    if !ok { return; }
    ghost var w1 := k.world;
    OnlySlot(w1, c.held, quarantine);
    ok := k.UnlinkAt(quarantine);
    EvolvesTrans(w0, w1, k.world);
    if !ok { return; }
    ok := k.FSyncDirectory(c.slot.dir);
  }
}
