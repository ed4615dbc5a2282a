/** A directory of outputs: staged under a random name, proved complete, and put in place by one rename. */
module LinuxOutputSet {
  import opened Bytes
  import opened AdapterErrors
  import opened FileWorld
  import opened KernelCalls
  import opened LinuxPath
  import opened LinuxOutput
  import opened LinuxOutputRollback
  import opened LinuxOutputTransaction

  const SET_DIRECTORY_MODE := 0x1C0  // rwx for the owner, nothing else
  const STAGING_ATTEMPTS := 8
  const STAGING_PREFIX := ".legitimacy-output-set-"
  const STAGING_SUFFIX := ".staging"

  /** A name that a staging directory can get. */
  ghost predicate IsStagingName(name: Name) { IsRandomName(name, STAGING_PREFIX, STAGING_SUFFIX) }

  /** A caller can ask for any such name as the final one. */
  lemma StagingNameCanBeRequested(name: Name)
    requires IsStagingName(name)
    ensures ValidRelativeName(name)
  {
    var digits :| AllHex(digits) && name == STAGING_PREFIX + digits + STAGING_SUFFIX;
    assert name[0] == '.' && name[1] == 'l';
  }

  // ---- what the checks establish

  predicate ExactStaging(w: World, d: Ino) {
    d in w.inodes && w.inodes[d].kind == Directory
    && w.inodes[d].uid == w.euid && w.inodes[d].mode == SET_DIRECTORY_MODE
  }

  predicate StagingNamed(w: World, s: Slot, d: Ino) {
    s in w.names && w.names[s] == d && ExactStaging(w, d)
  }

  function NamesIn(w: World, d: Ino): set<Name> {
    set s | s in w.names && s.dir == d :: s.name
  }

  function NamesOf(members: Members): set<Name> {
    set m | m in members :: m.0
  }

  /** The directory holds the committed members and nothing else. */
  ghost predicate Complete(w: World, d: Ino, members: Members, outputs: Outputs) {
    && ExactStaging(w, d)
    && NamesIn(w, d) == NamesOf(members)
    && |outputs| == |members| && MembersOf(outputs, d, members)
    && AllIntact(w, outputs)
  }

  /** The directory holds exactly the given names, each leading to a file of its own with exactly its bytes. */
  ghost predicate Holds(w: World, d: Ino, members: Members) {
    && ExactStaging(w, d)
    && NamesIn(w, d) == NamesOf(members)
    && forall j :: 0 <= j < |members| ==>
                     var s := Slot(d, members[j].0);
                     s in w.names && Published(w, s, w.names[s], w.euid, members[j].1)
  }

  lemma CompleteHolds(w: World, d: Ino, members: Members, outputs: Outputs)
    requires Complete(w, d, members, outputs)
    ensures Holds(w, d, members)
  {}

  /** No step since `before` gave the name `s` to an inode. */
  ghost predicate NeverGiven(before: seq<Step>, after: seq<Step>, s: Slot) {
    before <= after && !Gives(before, after, s)
  }

  // ---- validation

  method ValidateMembers(members: Members) returns (ok: bool)
    ensures ok <==> members != [] && (forall m :: m in members ==> ValidRelativeName(m.0)) && DistinctNames(members)
  {
    if members == [] {
      return false;
    }
    for n := 0 to |members|
      invariant forall j :: 0 <= j < n ==> ValidRelativeName(members[j].0)
    {
      if !ValidRelativeName(members[n].0) {
        assert members[n] in members;
        return false;
      }
    }
    for left := 0 to |members|
      invariant forall i, j :: 0 <= i < left && i < j < |members| ==> members[i].0 != members[j].0
    {
      for right := left + 1 to |members|
        invariant forall j :: left < j < right ==> members[left].0 != members[j].0
      {
        if members[left].0 == members[right].0 {
          return false;
        }
      }
    }
    ok := true;
  }

  method VerifyStagingName(k: Kernel, s: Slot, d: Ino) returns (ok: bool)
    requires k.Valid()
    ensures ok ==> StagingNamed(k.world, s, d)
    ensures !k.mayFail && StagingNamed(k.world, s, d) ==> ok
  {
    var found := k.StatAt(s);
    ok := found.Found? && found.stat.ino == d && ExactProperties(found.stat, k.world.euid);
  }

  predicate ExactProperties(m: Metadata, euid: nat) {
    m.kind == Directory && m.uid == euid && m.mode == SET_DIRECTORY_MODE
  }

  method VerifyStagingDirectory(k: Kernel, d: Ino, members: Members, outputs: Outputs) returns (r: Result<Unit, Code>)
    requires k.Valid() && d in k.world.inodes && forall p :: p in outputs ==> p.0.held in k.world.inodes
    requires MembersOf(outputs, d, members)
    modifies k`world, k`interrupts
    ensures k.world == old(k.world) && k.interrupts <= old(k.interrupts)
    ensures r.Ok? ==> Complete(k.world, d, members, outputs)
    ensures !k.mayFail && Complete(k.world, d, members, outputs) ==> r.Ok?
    ensures r.Err? ==> r.error == OutputIdentityUncertain || r.error == OutputIntegrityUncertain
  {
    ghost var w := k.world;
    var stat := k.FStat(d);
    if stat.None? || !ExactProperties(stat.value, k.world.euid) {
      return Err(OutputIdentityUncertain);
    }
    var inventory := k.Reopen(d);
    if inventory.None? {
      return Err(OutputIdentityUncertain);
    }
    var names := k.ReadNames(inventory.value);
    if names.None? || names.value != NamesOf(members) || |outputs| != |members| {
      return Err(OutputIdentityUncertain);
    }
    EvolvesRefl(w);
    for n := 0 to |members|
      invariant k.Valid() && k.world == w && k.interrupts <= old(k.interrupts)
      invariant forall j :: 0 <= j < n ==>
                              && outputs[j].0.slot == Slot(d, members[j].0) && outputs[j].1 == members[j].1
                              && Intact(w, outputs[j].0, outputs[j].1)
    {
      assert outputs[n] in outputs;
      var failed := k.Fault();
      if failed || outputs[n].0.slot.name != members[n].0 || outputs[n].0.slot.dir != d {
        return Err(OutputIdentityUncertain);
      }
      var checked := RevalidateCommitted(k, outputs[n].0, members[n].1, NoHooks, w);
      if checked.Err? {
        return checked;
      }
    }
    r := Ok(Unit.Unit);
  }

  // ---- staging

  /** The only step since, if there is one, makes a directory. */
  ghost predicate MadeOnly(before: seq<Step>, after: seq<Step>, made: Option<Slot>) {
    match made
    case None => after == before
    case Some(s) =>
      && before <= after && |after| == |before| + 1
      && after[|before|].op.MakeDir? && after[|before|].op.slot == s
  }

  /** One of at most eight random names; an occupied one is not an error. */
  method CreateStagingDirectory(k: Kernel, parent: Ino) returns (r: Result<Slot, Code>)
    requires k.Valid()
    modifies k`world, k`log, k`mine
    ensures k.Valid() && (old(k.Clean()) ==> k.Clean())
    ensures r.Ok? ==>
              && r.value.dir == parent && r.value !in old(k.world).names && r.value in k.world.names
              && NewStaging(old(k.world), k.world, r.value, k.world.names[r.value])
              && Evolves(old(k.world), k.world)
              && (!k.mayFail ==> ExactStaging(k.world, k.world.names[r.value]))
              && k.mine == old(k.mine) + {k.world.names[r.value]}
              && IsStagingName(r.value.name)
              && MadeOnly(old(k.log), k.log, Some(r.value))
    ensures r.Err? ==> k.world == old(k.world) && k.mine == old(k.mine) && k.log == old(k.log)
    ensures r.Err? ==> r.error == EntropyUnavailable || r.error == OutputPublish
    ensures !k.mayFail ==> r.Ok?
  {
    for attempt := 0 to STAGING_ATTEMPTS
      invariant attempt > 0 ==> k.mayFail
      invariant k.Valid() && k.world == old(k.world) && k.mine == old(k.mine) && k.log == old(k.log)
    {
      var random := k.RandomName(parent, STAGING_PREFIX, STAGING_SUFFIX);
      if random.None? {
        return Err(EntropyUnavailable);
      }
      var s := Slot(parent, random.value);
      var made := k.MakeDirectory(s, SET_DIRECTORY_MODE);
      if made.Named? {
        return Ok(s);
      }
      if made.NameFailed? {
        return Err(OutputPublish);
      }
    }
    r := Err(OutputPublish);
  }

  /** `v` is `w` with an empty directory `d`, new to it, under the free name `s`. */
  ghost predicate NewStaging(w: World, v: World, s: Slot, d: Ino) {
    && s !in w.names && d !in w.inodes && d in v.inodes && v.inodes[d].kind == Directory
    && v == NewDirectory(w, s, d, v.inodes[d])
    && Slots(v, d) == {s}
    && (forall t :: t in w.names ==> t.dir != d)
  }

  datatype Staging = Staging(final: Slot, slot: Slot, dir: Ino)

  /** The members are valid, the final name is free, and no input has changed. */
  ghost predicate Stageable(k: Kernel, w: World, path: ParsedPath, members: Members, inputs: seq<Snapshot>)
    requires WellFormed(w)
  {
    && members != [] && DistinctNames(members) && (forall m :: m in members ==> ValidRelativeName(m.0))
    && OutputSlot(k, w, path).Some? && OutputSlot(k, w, path).value !in w.names
    && (forall s :: s in inputs ==> Unchanged(w, s))
  }

  /** Everything before the first stage at which other processes are let in. */
  method OpenStaging(k: Kernel, path: ParsedPath, members: Members, inputs: seq<Snapshot>)
    returns (r: Result<Staging, Code>, ghost made: Option<Slot>)
    requires k.Valid() && forall s :: s in inputs ==> s.ino in k.world.inodes
    modifies k
    ensures k.Valid() && Evolves(old(k.world), k.world) && (old(k.Clean()) ==> k.Clean())
    ensures k.interrupts <= old(k.interrupts)
    ensures MadeOnly(old(k.log), k.log, made)
    ensures made.Some? ==>
              && IsStagingName(made.value.name)
              && OutputSlot(k, old(k.world), path).Some?
              && made.value.dir == OutputSlot(k, old(k.world), path).value.dir
    ensures r.Ok? ==>
              var g := r.value;
              && made == Some(g.slot)
              && OutputSlot(k, old(k.world), path) == Some(g.final) && g.slot.dir == g.final.dir
              && g.final !in old(k.world).names && g.final.dir in old(k.world).inodes
              && NewStaging(old(k.world), k.world, g.slot, g.dir) && ExactStaging(k.world, g.dir)
              && k.mine == old(k.mine) + {g.dir}
              && members != [] && DistinctNames(members) && (forall m :: m in members ==> ValidRelativeName(m.0))
              && (forall s :: s in inputs ==> Unchanged(old(k.world), s))
    // a directory made before an early exit is left behind
    ensures r.Err? ==> forall i :: i in k.mine && i !in old(k.mine) ==> i in k.world.inodes && Slots(k.world, i) != {}
    ensures r.Err? && k.mine == old(k.mine) ==> k.world == old(k.world)
    ensures !k.mayFail && (inputs == [] || old(k.interrupts) == 0)
            ==> (r.Ok? <==> Stageable(k, old(k.world), path, members, inputs))
    ensures r.Err? && !k.mayFail ==> k.mine == old(k.mine)
  {
    EvolvesRefl(k.world);
    made := None;
    var valid := ValidateMembers(members);
    if !valid {
      return Err(UnsafeOutputPath), made;
    }
    var parent := WalkToParent(k, path, NoHooks, k.world);
    if parent.Err? {
      return Err(parent.error), made;
    }
    var parentSync := k.Reopen(parent.value);
    if parentSync.None? {
      var profile: bool := *;
      return Err(if profile then UnsupportedPublicationProfile else OutputPublish), made;
    }
    var final := Slot(parent.value, path.finalName);
    var free := PreflightFinal(k, final, inputs, []);
    if free.Err? {
      return Err(free.error), made;
    }
    var same := RevalidateInputs(k, inputs);
    if !same {
      return Err(InputChanged), made;
    }
    var s := CreateStagingDirectory(k, parent.value);
    if s.Err? {
      return Err(s.error), made;
    }
    made := Some(s.value);
    var observed := k.StatAt(s.value);
    if !observed.Found? {
      return Err(OutputPublish), made;
    }
    var staging := k.OpenDirectory(s.value);
    if staging.None? {
      return Err(OutputPublish), made;
    }
    var stat := k.FStat(staging.value);
    if stat.None? || stat.value.ino != observed.stat.ino || !ExactProperties(stat.value, k.world.euid) {
      return Err(OutputPublish), made;
    }
    r := Ok(Staging(final, s.value, staging.value));
  }

  /** The proof made three times before the rename. */
  method ProveStaging(k: Kernel, g: Staging, members: Members, outputs: Outputs, inputs: seq<Snapshot>)
    returns (r: Result<Unit, Code>)
    requires k.Valid() && g.dir in k.world.inodes && MembersOf(outputs, g.dir, members)
    requires GuardHeld(k.world, Guard(inputs, outputs))
    modifies k`world, k`interrupts
    ensures k.world == old(k.world) && k.interrupts <= old(k.interrupts)
    ensures r.Ok? ==> StagingNamed(k.world, g.slot, g.dir) && Complete(k.world, g.dir, members, outputs)
    ensures r.Ok? ==> g.final !in k.world.names && forall s :: s in inputs ==> Unchanged(k.world, s)
    ensures !k.mayFail && (inputs == [] || old(k.interrupts) == 0) && Provable(k.world, g, members, outputs, inputs) ==>
              r.Ok?
  {
    var named := VerifyStagingName(k, g.slot, g.dir);
    if !named {
      return Err(OutputIdentityUncertain);
    }
    r := VerifyStagingDirectory(k, g.dir, members, outputs);
    if r.Err? {
      return;
    }
    var same := RevalidateInputs(k, inputs);
    if !same {
      return Err(InputChanged);
    }
    r := PreflightFinal(k, g.final, inputs, []);
  }

  ghost predicate Provable(w: World, g: Staging, members: Members, outputs: Outputs, inputs: seq<Snapshot>) {
    && StagingNamed(w, g.slot, g.dir) && Complete(w, g.dir, members, outputs)
    && g.final !in w.names && (forall s :: s in inputs ==> Unchanged(w, s))
  }

  /** Prove, sync, prove again, prove once more, and rename. */
  method FinalizeStaging(k: Kernel, g: Staging, members: Members, outputs: Outputs, inputs: seq<Snapshot>, hooks: Hooks)
    returns (r: Result<Unit, Code>)
    requires k.Valid() && g.dir in k.world.inodes && MembersOf(outputs, g.dir, members)
    requires GuardHeld(k.world, Guard(inputs, outputs))
    modifies k`world, k`interrupts, k`log
    ensures k.Valid() && Evolves(old(k.world), k.world) && (old(k.Clean()) ==> k.Clean())
    ensures r.Ok? ==> CommittedBy(old(k.log), k.log, k.world, g, members, inputs)
    ensures r.Err? ==> k.log == old(k.log) && (hooks.NoHooks? ==> k.world == old(k.world))
    ensures hooks.NoHooks? && !k.mayFail && (inputs == [] || old(k.interrupts) == 0) && g.slot != g.final
            ==> Provable(old(k.world), g, members, outputs, inputs) ==> r.Ok?
  {
    ghost var w0 := k.world;
    EvolvesRefl(w0);
    r := ProveStaging(k, g, members, outputs, inputs);
    if r.Err? { return; }
    var ok := k.FSyncDirectory(g.dir);
    if !ok { return Err(OutputPublish); }
    ok := k.FSyncDirectory(g.final.dir);
    if !ok { return Err(OutputPublish); }
    k.Announce(hooks, w0);
    r := ProveStaging(k, g, members, outputs, inputs);
    if r.Err? { return; }
    k.Announce(hooks, w0);
    r := ProveStaging(k, g, members, outputs, inputs);
    if r.Err? { return; }
    ghost var w := k.world;
    CompleteHolds(w, g.dir, members, outputs);
    var renamed := k.RenameNoReplace(g.slot, g.final);
    EvolvesTrans(w0, w, k.world);
    match renamed {
      case Named =>
        var _ := k.FSyncDirectory(g.final.dir);
        r := Ok(Unit.Unit);
      case Occupied =>
        var code := ClassifyIncumbent(k, g.final, inputs, []);
        r := Err(code);
      case NameFailed =>
        var code := PublicationErrno();
        r := Err(code);
    }
  }

  /** The last step of the log moved the complete directory to the final name, and it is there. */
  ghost predicate CommittedBy(before: seq<Step>, after: seq<Step>, w: World, g: Staging, members: Members,
                              inputs: seq<Snapshot>)
  {
    && before <= after && |before| < |after|
    && var last := after[|after| - 1];
       && last.op == Rename(g.slot, g.final)
       && g.slot in last.pre.names && last.pre.names[g.slot] == g.dir && g.final !in last.pre.names
       && Holds(last.pre, g.dir, members) && (forall s :: s in inputs ==> Unchanged(last.pre, s))
       && NeverGiven(before, after[..|after| - 1], g.final)
       && last.post == w && g.final in w.names && w.names[g.final] == g.dir
  }

  // ---- cleanup

  method VerifyEmptyStaging(k: Kernel, d: Ino) returns (ok: bool)
    requires k.Valid() && d in k.world.inodes
    ensures ok ==> ExactStaging(k.world, d) && NamesIn(k.world, d) == {}
    ensures !k.mayFail && ExactStaging(k.world, d) && NamesIn(k.world, d) == {} ==> ok
  {
    var stat := k.FStat(d);
    if stat.None? || !ExactProperties(stat.value, k.world.euid) {
      return false;
    }
    var inventory := k.Reopen(d);
    if inventory.None? {
      return false;
    }
    var names := k.ReadNames(inventory.value);
    ok := names.Some? && names.value == {};
  }

  /** The staging directory is in place and holds the intact outputs and nothing else. */
  ghost predicate Cleanable(w: World, g: Staging, outputs: Outputs) {
    && StagingNamed(w, g.slot, g.dir) && g.slot.dir != g.dir
    && AllIntact(w, outputs) && DistinctSlots(outputs) && (forall p :: p in outputs ==> p.0.slot.dir == g.dir)
    && (forall s :: s in w.names && s.dir == g.dir ==> s in SlotsOf(outputs))
  }

  /** The first `n` outputs have been taken back. */
  ghost predicate Cleaned(w: World, v: World, g: Staging, outputs: Outputs, n: nat)
    requires n <= |outputs|
  {
    && StagingNamed(v, g.slot, g.dir) && AllIntact(v, outputs[n..])
    && v.names == w.names - SlotsOf(outputs[..n])
  }

  lemma CleanedNext(w: World, v: World, u: World, g: Staging, outputs: Outputs, n: nat)
    requires n < |outputs| && Cleanable(w, g, outputs) && Cleaned(w, v, g, outputs, n)
    requires TakesName(v, u, outputs[n].0.slot, outputs[n].0.held)
    ensures Cleaned(w, u, g, outputs, n + 1)
  {
    SplitAt(outputs, n);
    assert outputs[n] in outputs && outputs[n..][0] == outputs[n];
    forall j | n < j < |outputs| ensures Intact(u, outputs[j].0, outputs[j].1) {
      assert outputs[j] in outputs[n..];
      TakesNameKeeps(v, u, outputs[n].0.slot, outputs[n].0.held, outputs[j].0, outputs[j].1);
    }
  }

  lemma CleanedAll(w: World, v: World, g: Staging, outputs: Outputs)
    requires Cleanable(w, g, outputs) && Cleaned(w, v, g, outputs, |outputs|)
    ensures StagingNamed(v, g.slot, g.dir) && NamesIn(v, g.dir) == {}
    ensures v.names == w.names - SlotsOf(outputs)
    ensures forall t :: t in v.names ==> t.dir != g.dir
  {}

  /** Take the members back, in order, then the directory. Any doubt leaves everything where it is. */
  method CleanupStaging(k: Kernel, g: Staging, committed: Outputs, hooks: Hooks) returns (ok: bool)
    requires k.Valid() && g.dir in k.mine
    requires forall p :: p in committed ==> p.0.held in k.mine && p.0.slot.dir == g.dir
    modifies k`world, k`interrupts, k`log
    ensures k.Valid() && Evolves(old(k.world), k.world) && (old(k.Clean()) ==> k.Clean())
    ensures MovesWithin(old(k.log), k.log, g.dir)
    ensures ok ==> Slots(k.world, g.dir) == {} && forall p :: p in committed ==> Slots(k.world, p.0.held) == {}
    ensures hooks.NoHooks? && !k.mayFail && Cleanable(old(k.world), g, committed) ==>
              ok && k.world.names == old(k.world).names - SlotsOf(committed) - {g.slot}
  {
    ghost var w0 := k.world;
    EvolvesRefl(w0);
    ok := VerifyStagingName(k, g.slot, g.dir);
    if !ok { return; }
    ok := CleanupMembers(k, g, committed);
    if !ok { return; }
    ghost var w1 := k.world;
    if !k.mayFail && Cleanable(w0, g, committed) {
      CleanedAll(w0, w1, g, committed);
    }
    ok := RemoveStaging(k, g, hooks);
    EvolvesTrans(w0, w1, k.world);
    forall p | ok && p in committed
      ensures Slots(k.world, p.0.held) == {}
    {
      assert Later(w1, k.world, p.0.held);
    }
  }

  /** The loop over the published members. */
  method CleanupMembers(k: Kernel, g: Staging, committed: Outputs) returns (ok: bool)
    requires k.Valid() && g.dir in k.mine
    requires forall p :: p in committed ==> p.0.held in k.mine && p.0.slot.dir == g.dir
    modifies k`world, k`interrupts, k`log
    ensures k.Valid() && Evolves(old(k.world), k.world) && (old(k.Clean()) ==> k.Clean())
    ensures MovesWithin(old(k.log), k.log, g.dir)
    ensures ok ==> forall p :: p in committed ==> p.0.held in k.world.inodes && Slots(k.world, p.0.held) == {}
    ensures !k.mayFail && Cleanable(old(k.world), g, committed) ==>
              ok && Cleaned(old(k.world), k.world, g, committed, |committed|)
  {
    ghost var w0 := k.world;
    EvolvesRefl(w0);
    ok := true;
    for n := 0 to |committed|
      invariant k.Valid() && Evolves(w0, k.world) && (old(k.Clean()) ==> k.Clean()) && ok
      invariant MovesWithin(old(k.log), k.log, g.dir)
      invariant forall p :: p in committed[..n] ==> p.0.held in k.world.inodes && Slots(k.world, p.0.held) == {}
      invariant !k.mayFail && Cleanable(w0, g, committed) ==> Cleaned(w0, k.world, g, committed, n)
    {
      ghost var before := k.world;
      assert committed[n] in committed;
      assert committed[n..][0] == committed[n];
      ok := CleanupMember(k, committed[n].0, committed[n].1);
      EvolvesTrans(w0, before, k.world);
      if !ok { return; }
      if !k.mayFail && Cleanable(w0, g, committed) {
        CleanedNext(w0, before, k.world, g, committed, n);
      }
      forall p | p in committed[..n] ensures Later(before, k.world, p.0.held) {}
      assert committed[..n + 1] == committed[..n] + [committed[n]];
    }
    assert committed[..|committed|] == committed;
  }

  /** The empty directory is looked at twice, with a stage between, and removed. */
  method RemoveStaging(k: Kernel, g: Staging, hooks: Hooks) returns (ok: bool)
    requires k.Valid() && g.dir in k.mine
    modifies k`world, k`log
    ensures k.Valid() && Evolves(old(k.world), k.world) && (old(k.Clean()) ==> k.Clean())
    ensures MovesWithin(old(k.log), k.log, g.dir)
    ensures ok ==> Slots(k.world, g.dir) == {}
    ensures hooks.NoHooks? && !k.mayFail && StagingNamed(old(k.world), g.slot, g.dir)
            && NamesIn(old(k.world), g.dir) == {} ==>
              ok && k.world.names == old(k.world).names - {g.slot}
  {
    ghost var w0 := k.world;
    EvolvesRefl(w0);
    ok := VerifyEmptyStaging(k, g.dir);
    if !ok { return; }
    k.Announce(hooks, w0);
    ghost var w1 := k.world;
    ok := VerifyStagingName(k, g.slot, g.dir);
    if !ok { return; }
    ok := VerifyEmptyStaging(k, g.dir);
    if !ok { return; }
    assert forall t :: t in w1.names && t.dir == g.dir ==> t.name in NamesIn(w1, g.dir);
    ok := k.RemoveDirectory(g.slot);
    EvolvesTrans(w0, w1, k.world);
    if !ok { return; }
    ok := k.FSyncDirectory(g.final.dir);
  }

  method CleanupMember(k: Kernel, c: Committed, bytes: seq<u8>) returns (ok: bool)
    requires k.Valid() && c.held in k.mine
    modifies k`world, k`interrupts, k`log
    ensures k.Valid() && Evolves(old(k.world), k.world) && (old(k.Clean()) ==> k.Clean())
    ensures MovesWithin(old(k.log), k.log, c.slot.dir)
    ensures ok ==> Slots(k.world, c.held) == {} && TakesName(old(k.world), k.world, c.slot, c.held)
    ensures !k.mayFail && Intact(old(k.world), c, bytes) ==> ok
  {
    ghost var w0 := k.world;
    EvolvesRefl(w0);
    var checked := RevalidateCommitted(k, c, bytes, NoHooks, w0);
    if checked.Err? { return false; }
    var quarantine := Quarantine(k, c, bytes, |bytes|, NoHooks);
    if quarantine.None? { return false; }
    ghost var w1, l1 := k.world, k.log;
    OnlySlot(w1, c.held, quarantine.value);
    ok := k.UnlinkAt(quarantine.value);
    EvolvesTrans(w0, w1, k.world);
  }

  // ---- the whole call

  /** `late` is what the caller's verifier returns. `made` is the name of the staging directory once there is one, and
      `reached` is set once that directory is open. */
  method PublishDirectorySet(k: Kernel, path: ParsedPath, members: Members, inputs: seq<Snapshot>, late: Option<Code>,
                             hooks: Hooks)
    returns (r: Result<Unit, Code>, ghost reached: Option<Staging>, ghost made: Option<Slot>)
    requires k.Valid() && forall s :: s in inputs ==> s.ino in k.world.inodes
    modifies k
    ensures k.Valid() && Evolves(old(k.world), k.world) && (old(k.Clean()) ==> k.Clean())
    // success puts a complete directory of the call's own making under the final name, by its last step
    ensures r.Ok? ==>
              && late.None? && reached.Some? && made != Some(reached.value.final)
              && OutputSlot(k, old(k.world), path) == Some(reached.value.final)
              && reached.value.dir in k.mine && reached.value.dir !in old(k.world).inodes
              && CommittedBy(old(k.log), k.log, k.world, reached.value, members, inputs)
    // a failure never gives the final name to anything, unless the random staging name was that very name
    ensures r.Err? ==>
              var final := OutputSlot(k, old(k.world), path);
              && old(k.log) <= k.log
              && (final.None? ==> k.log == old(k.log))
              && (final.Some? ==> (Gives(old(k.log), k.log, final.value) <==> made == final))
    ensures made.Some? ==> IsStagingName(made.value.name)
    ensures r.Err? && OutputSlot(k, old(k.world), path).Some? && !IsStagingName(path.finalName) ==>
              NeverGiven(old(k.log), k.log, OutputSlot(k, old(k.world), path).value)
    ensures reached.Some? ==> made == Some(reached.value.slot)
    // a certain failure leaves nothing behind, once the directory was open
    ensures r.Err? && r.error != OutputRollbackUncertain && reached.Some? ==>
              forall i :: i in k.mine && i !in old(k.mine) ==> i !in old(k.world).inodes && Slots(k.world, i) == {}
    // and before that it leaves behind exactly what it made
    ensures r.Err? && reached.None? ==>
              forall i :: i in k.mine && i !in old(k.mine) ==> i in k.world.inodes && Slots(k.world, i) != {}
    ensures r.Err? && reached.None? && !k.mayFail ==> k.mine == old(k.mine) && k.world == old(k.world)
    // alone, with no failing call: a failure leaves every name as it was, and success is decided by the arguments
    ensures hooks.NoHooks? && !k.mayFail && r.Err? ==> k.world.names == old(k.world).names
    ensures hooks.NoHooks? && !k.mayFail && (inputs == [] || old(k.interrupts) == 0) ==>
              && (reached.Some? <==> Stageable(k, old(k.world), path, members, inputs))
              && (reached.Some? && made != Some(reached.value.final) ==>
                    (if late.None? then r.Ok? else r == Err(late.value)))
  {
    ghost var w0, m0, l0 := k.world, k.mine, k.log;
    reached := None;
    var g;
    g, made := OpenStaging(k, path, members, inputs);
    if g.Err? {
      r := Err(g.error);
      return;
    }
    reached := Some(g.value);
    ghost var w1, m1, l1 := k.world, k.mine, k.log;
    if hooks.NoHooks? {
      FreshStagingReady(w0, w1, g.value, members, inputs);
    }
    r := StageMembers(k, g.value, members, inputs, late, hooks);
    EvolvesTrans(w0, w1, k.world);
    if r.Ok? {
      CommittedEarlier(l0, l1, k.log, k.world, g.value, members, inputs);
    } else {
      GivenByMaking(l0, l1, k.log, g.value);
      if r.error != OutputRollbackUncertain {
        NothingNamed(w0, w1, k.world, m0, m1, k.mine, g.value.dir);
      }
    }
  }

  lemma NothingNamed(w0: World, w1: World, w2: World, m0: set<Ino>, m1: set<Ino>, m2: set<Ino>, d: Ino)
    requires Evolves(w0, w1) && m1 == m0 + {d} && d !in w0.inodes && Slots(w2, d) == {}
    requires forall i :: i in m2 && i !in m1 ==> i !in w1.inodes && Slots(w2, i) == {}
    ensures forall i :: i in m2 && i !in m0 ==> i !in w0.inodes && Slots(w2, i) == {}
  {}

  lemma GivenByMaking(l0: seq<Step>, l1: seq<Step>, l2: seq<Step>, g: Staging)
    requires MadeOnly(l0, l1, Some(g.slot)) && NeverGiven(l1, l2, g.final)
    ensures l0 <= l2 && (Gives(l0, l2, g.final) <==> g.slot == g.final)
  {
    assert l2[|l0|] == l1[|l0|];
  }

  lemma CommittedEarlier(l0: seq<Step>, l1: seq<Step>, l2: seq<Step>, w: World, g: Staging, members: Members,
                         inputs: seq<Snapshot>)
    requires NeverGiven(l0, l1, g.final) || MadeOnly(l0, l1, Some(g.slot))
    requires CommittedBy(l1, l2, w, g, members, inputs)
    ensures CommittedBy(l0, l2, w, g, members, inputs)
  {
    forall n | |l0| <= n < |l2| - 1 ensures Target(l2[n].op) != Some(g.final) {
      if n < |l1| {
        assert l2[n] == l1[n];
      } else {
        assert l2[..|l2| - 1][n] == l2[n];
      }
    }
  }

  lemma FreshStagingReady(w0: World, w: World, g: Staging, members: Members, inputs: seq<Snapshot>)
    requires WellFormed(w0) && NewStaging(w0, w, g.slot, g.dir) && g.slot.dir in w0.inodes && DistinctNames(members)
    requires ExactStaging(w, g.dir)
    requires (forall m :: m in members ==> ValidRelativeName(m.0)) && (forall s :: s in inputs ==> Unchanged(w0, s))
    ensures MembersReady(w, g.dir, members, inputs) && EmptyStaging(w, g) && w.names - {g.slot} == w0.names
    ensures g.slot != g.final && g.final !in w0.names ==> StagingReady(w, g, members, inputs)
  {
    MakeDirectoryFacts(w0, g.slot, g.dir, w.inodes[g.dir]);
  }

  /** From the open staging directory on; other processes run at every stage. */
  method StageMembers(k: Kernel, g: Staging, members: Members, inputs: seq<Snapshot>, late: Option<Code>, hooks: Hooks)
    returns (r: Result<Unit, Code>)
    requires k.Valid() && g.dir in k.mine && g.final.dir != g.dir && members != []
    requires forall s :: s in inputs ==> s.ino in k.world.inodes
    modifies k
    ensures k.Valid() && Evolves(old(k.world), k.world) && (old(k.Clean()) ==> k.Clean())
    ensures old(k.mine) <= k.mine
    ensures r.Ok? ==> late.None? && CommittedBy(old(k.log), k.log, k.world, g, members, inputs)
    ensures r.Err? ==> NeverGiven(old(k.log), k.log, g.final)
    ensures r.Err? && r.error != OutputRollbackUncertain ==>
              && Slots(k.world, g.dir) == {}
              && forall i :: i in k.mine && i !in old(k.mine) ==> i !in old(k.world).inodes && Slots(k.world, i) == {}
    ensures hooks.NoHooks? && !k.mayFail && (inputs == [] || old(k.interrupts) == 0)
            ==> StagingReady(old(k.world), g, members, inputs) ==> (if late.None? then r.Ok? else r == Err(late.value))
    ensures hooks.NoHooks? && !k.mayFail && EmptyStaging(old(k.world), g) && r.Err? ==>
              k.world.names == old(k.world).names - {g.slot}
  {
    ghost var w0, m0, l0 := k.world, k.mine, k.log;
    var committed, publication;
    ghost var w1, w2;
    committed, publication, w1, w2 := PublishStaged(k, g, members, inputs, late, hooks);
    EvolvesTrans(w0, w1, w2);
    EvolvesTrans(w0, w2, k.world);
    if publication.Ok? {
      return publication;
    }
    ghost var w4, l4 := k.world, k.log;
    k.Announce(hooks, w2);
    EvolvesTrans(w0, w4, k.world);
    if hooks.NoHooks? && !k.mayFail && EmptyStaging(w0, g) {
      StagedIsCleanable(w0, w4, g, committed);
    }
    r := CleanOrUncertain(k, g, committed, publication.error, hooks, w1, m0, w2);
    EvolvesTrans(w0, w1, k.world);
    StaysInside(l0, l4, k.log, g, committed);
  }

  ghost predicate EmptyStaging(w: World, g: Staging) {
    StagingNamed(w, g.slot, g.dir) && NamesIn(w, g.dir) == {} && g.slot.dir != g.dir
  }

  lemma StagedIsCleanable(w: World, v: World, g: Staging, outputs: Outputs)
    requires EmptyStaging(w, g) && PublishedOver(w, v, outputs) && AllIntact(v, outputs)
    requires forall p :: p in outputs ==> p.0.slot.dir == g.dir
    ensures Cleanable(v, g, outputs) && v.names - SlotsOf(outputs) - {g.slot} == w.names - {g.slot}
  {
    forall s | s in v.names && s.dir == g.dir ensures s in SlotsOf(outputs) {
      assert s in w.names ==> s.name in NamesIn(w, g.dir);
    }
  }

  /** Links of members and moves within the staging directory give no other name. */
  lemma StaysInside(l0: seq<Step>, l1: seq<Step>, l2: seq<Step>, g: Staging, outputs: Outputs)
    requires LinksOf(l0, l1, outputs) && (forall p :: p in outputs ==> p.0.slot.dir == g.dir)
    requires MovesWithin(l1, l2, g.dir) && g.final.dir != g.dir
    ensures NeverGiven(l0, l2, g.final)
  {
    forall n | |l0| <= n < |l2| ensures Target(l2[n].op) != Some(g.final) {
      if n < |l1| { assert l2[n] == l1[n]; }
    }
  }

  /** Publish the members and, if all went well, finalize; `w1` and `w2` enclose the member commits. */
  method PublishStaged(k: Kernel, g: Staging, members: Members, inputs: seq<Snapshot>, late: Option<Code>, hooks: Hooks)
    returns (committed: Outputs, publication: Result<Unit, Code>, ghost w1: World, ghost w2: World)
    requires k.Valid() && g.dir in k.mine && g.final.dir != g.dir && members != []
    requires forall s :: s in inputs ==> s.ino in k.world.inodes
    modifies k
    ensures k.Valid() && Evolves(old(k.world), w1) && Evolves(w1, w2) && Evolves(w2, k.world)
    ensures old(k.Clean()) ==> k.Clean()
    ensures Accounted(old(k.mine), k.mine, w1, w2, committed) && MembersOf(committed, g.dir, members)
    ensures publication.Ok? ==> late.None? && CommittedBy(old(k.log), k.log, k.world, g, members, inputs)
    ensures publication.Err? ==> LinksOf(old(k.log), k.log, committed)
    ensures PublishedOver(w1, w2, committed) && (!k.mayFail ==> AllIntact(w2, committed))
    ensures hooks.NoHooks? ==> w1 == old(k.world) && (publication.Err? ==> k.world == w2)
    ensures hooks.NoHooks? && !k.mayFail && (inputs == [] || old(k.interrupts) == 0)
              && StagingReady(old(k.world), g, members, inputs)
            ==> (if late.None? then publication.Ok? else publication == Err(late.value))
  {
    ghost var w0, l0 := k.world, k.log;
    EvolvesRefl(w0);
    k.Announce(hooks, w0);
    w1 := k.world;
    var failure;
    committed, failure := PublishRelativeSet(k, g.dir, members, inputs, late);
    w2 := k.world;
    EvolvesRefl(w2);
    if failure.Some? {
      publication := Err(failure.value);
      return;
    }
    publication := FinalizePublished(k, g, members, committed, inputs, hooks, w1, l0);
  }

  /** Two more stages, and the finalization of the published members. */
  method FinalizePublished(k: Kernel, g: Staging, members: Members, committed: Outputs, inputs: seq<Snapshot>,
                           hooks: Hooks, ghost w1: World, ghost l0: seq<Step>)
    returns (r: Result<Unit, Code>)
    requires k.Valid() && g.dir in k.world.inodes && g.final.dir != g.dir
    requires GuardHeld(k.world, Guard(inputs, committed)) && MembersPublished(w1, k.world, g.dir, members, committed)
    requires LinksOf(l0, k.log, committed)
    modifies k`world, k`interrupts, k`log
    ensures k.Valid() && Evolves(old(k.world), k.world) && (old(k.Clean()) ==> k.Clean())
    ensures r.Ok? ==> CommittedBy(l0, k.log, k.world, g, members, inputs)
    ensures r.Err? ==> k.log == old(k.log) && (hooks.NoHooks? ==> k.world == old(k.world))
    ensures hooks.NoHooks? && !k.mayFail && (inputs == [] || old(k.interrupts) == 0)
            ==> StagingReady(w1, g, members, inputs) ==> r.Ok?
  {
    ghost var w2 := k.world;
    if StagingReady(w1, g, members, inputs) {
      StagingProvable(w1, w2, g, members, committed, inputs);
    }
    EvolvesRefl(w2);
    k.Announce(hooks, w2);
    k.Announce(hooks, w2);
    ghost var w3, l3 := k.world, k.log;
    r := FinalizeStaging(k, g, members, committed, inputs, hooks);
    EvolvesTrans(w2, w3, k.world);
    if r.Ok? {
      CommittedEarlier(l0, l3, k.log, k.world, g, members, inputs);
    }
  }

  /** Cleanup after a failure: its code stands only if everything was taken back. */
  method CleanOrUncertain(k: Kernel, g: Staging, committed: Outputs, original: Code, hooks: Hooks, ghost w1: World,
                          ghost m1: set<Ino>, ghost w2: World)
    returns (r: Result<Unit, Code>)
    requires k.Valid() && g.dir in k.mine && (forall p :: p in committed ==> p.0.slot.dir == g.dir)
    requires Evolves(w1, w2) && Evolves(w2, k.world) && Accounted(m1, k.mine, w1, w2, committed)
    modifies k`world, k`interrupts, k`log
    ensures k.Valid() && Evolves(w1, k.world) && (old(k.Clean()) ==> k.Clean())
    ensures r.Err? && MovesWithin(old(k.log), k.log, g.dir)
    ensures r.error != OutputRollbackUncertain ==>
              && Slots(k.world, g.dir) == {}
              && forall i :: i in k.mine && i !in m1 ==> i !in w1.inodes && Slots(k.world, i) == {}
    ensures hooks.NoHooks? && !k.mayFail && Cleanable(old(k.world), g, committed) ==>
              r.error == original && k.world.names == old(k.world).names - SlotsOf(committed) - {g.slot}
  {
    ghost var w3 := k.world;
    EvolvesTrans(w1, w2, w3);
    var ok := CleanupStaging(k, g, committed, hooks);
    EvolvesTrans(w1, w3, k.world);
    if ok {
      forall i | i in k.mine && i !in m1
        ensures i !in w1.inodes && Slots(k.world, i) == {}
      {
        assert Later(w2, w3, i);
        assert Later(w3, k.world, i);
      }
    }
    r := Err(if ok then original else OutputRollbackUncertain);
  }

  /** The staging directory is as it was made, and what is to be published is valid. */
  ghost predicate StagingReady(w: World, g: Staging, members: Members, inputs: seq<Snapshot>) {
    && StagingNamed(w, g.slot, g.dir) && NamesIn(w, g.dir) == {} && g.final !in w.names
    && g.slot != g.final && g.slot.dir != g.dir && MembersReady(w, g.dir, members, inputs)
  }

  lemma StagingProvable(w: World, v: World, g: Staging, members: Members, outputs: Outputs, inputs: seq<Snapshot>)
    requires StagingReady(w, g, members, inputs) && g.final.dir != g.dir
    requires MembersPublished(w, v, g.dir, members, outputs)
    ensures Provable(v, g, members, outputs, inputs)
  {
    InputsKept(w, v, outputs, inputs);
    forall s | s in w.names
      ensures s.dir == g.dir ==> s.name in NamesIn(w, g.dir)
    {}
    forall name | name in NamesIn(v, g.dir)
      ensures name in NamesOf(members)
    {
      var s := Slot(g.dir, name);
      var p :| p in outputs && p.0.slot == s;
      var j :| 0 <= j < |outputs| && outputs[j] == p;
      assert members[j] in members;
    }
    forall name | name in NamesOf(members)
      ensures name in NamesIn(v, g.dir)
    {
      var m :| m in members && m.0 == name;
      var j :| 0 <= j < |members| && members[j] == m;
      assert outputs[j] in outputs;
      assert Slot(g.dir, name) in v.names;
    }
    forall s | s in v.names
      ensures s != g.final
    {
      if s !in w.names {
        var p :| p in outputs && p.0.slot == s;
        var j :| 0 <= j < |outputs| && outputs[j] == p;
      }
    }
  }
}
