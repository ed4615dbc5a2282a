/** Publication of one file: an anonymous inode is written, verified and synced, linked under a name
    that must be free, and verified again. */
module LinuxOutput {
  import opened Bytes
  import opened AdapterErrors
  import opened FileWorld
  import opened KernelCalls
  import opened LinuxPath

  const OUTPUT_MODE := 0x180  // rw for the owner, nothing else

  datatype Prepared = Prepared(slot: Slot, uid: nat)

  datatype Committed = Committed(held: Ino, slot: Slot, metadata: Option<Metadata>, uid: nat)

  datatype CommitResult =
    | Done(committed: Committed)
    | PreLink(error: Code)
    | PostLink(committed: Committed, error: Code)
  {
    predicate Linked() { !PreLink? }
  }

  /** What the closure handed to `commit` runs just before the link. */
  datatype Guard = Guard(inputs: seq<Snapshot>, prior: seq<(Committed, seq<u8>)>)

  // ---- what the checks establish

  predicate HeldExact(w: World, i: Ino, uid: nat, links: nat, bytes: seq<u8>) {
    && i in w.inodes
    && w.inodes[i].kind == Regular
    && w.euid == uid
    && w.inodes[i].uid == uid
    && w.inodes[i].mode == OUTPUT_MODE
    && |Slots(w, i)| == links
    && w.inodes[i].data == bytes
  }

  /** The name leads to the file, the file has no other name, and its bytes, mode and owner are exact. */
  predicate Published(w: World, s: Slot, i: Ino, uid: nat, bytes: seq<u8>) {
    s in w.names && w.names[s] == i && HeldExact(w, i, uid, 1, bytes)
  }

  predicate Intact(w: World, c: Committed, bytes: seq<u8>) {
    Published(w, c.slot, c.held, c.uid, bytes) && c.metadata == Some(Stat(w, c.held))
  }

  predicate FinalExact(w: World, s: Slot, i: Ino, metadata: Option<Metadata>, uid: nat, length: nat) {
    && s in w.names && w.names[s] == i && i in w.inodes
    && w.inodes[i].kind == Regular
    && w.euid == uid
    && w.inodes[i].uid == uid
    && w.inodes[i].mode == OUTPUT_MODE
    && |Slots(w, i)| == 1
    && |w.inodes[i].data| == length
    && (metadata.Some? ==> Stat(w, i) == metadata.value)
  }

  /** `v` has the names of `w`, and the inodes of `w` are as they were. */
  ghost predicate Adds(w: World, v: World) {
    && v.names == w.names
    && v.euid == w.euid
    && DiskKept(w, v)
    && forall j :: j in w.inodes ==> j in v.inodes && v.inodes[j] == w.inodes[j]
  }

  lemma AddsSlots(w: World, v: World)
    requires v.names == w.names
    ensures forall j :: Slots(v, j) == Slots(w, j)
  {}

  // ---- the transfer loops

  method WriteAll(k: Kernel, i: Ino, bytes: seq<u8>) returns (ok: bool)
    requires k.Valid() && i in k.world.inodes
    modifies k
    ensures k.Valid() && k.mine == old(k.mine) && Evolves(old(k.world), k.world)
    ensures old(k.Clean()) && i in k.mine ==> k.Clean()
    ensures OnlyFile(old(k.world), k.world, i)
    ensures var was := old(k.world).inodes[i];
            k.world.inodes[i] == was.(data := k.world.inodes[i].data, tick := k.world.inodes[i].tick)
    // whatever the sizes of the pieces and however often a write is interrupted
    ensures ok ==> k.world.inodes[i].data == Overwrite(old(k.world).inodes[i].data, 0, bytes)
    ensures !ok ==> k.mayFail
    ensures FileSteps(old(k.log), k.log, old(k.world), i)
    ensures k.interrupts <= old(k.interrupts)
  {
    EvolvesRefl(k.world);
    var written := 0;
    ghost var was := k.world.inodes[i];
    assert was.data == Overwrite(was.data, 0, bytes[..0]);
    while written < |bytes|
      invariant written <= |bytes|
      invariant k.Valid() && k.mine == old(k.mine) && Evolves(old(k.world), k.world)
      invariant old(k.Clean()) && i in k.mine ==> k.Clean()
      invariant OnlyFile(old(k.world), k.world, i)
      invariant k.world.inodes[i] == was.(data := Overwrite(was.data, 0, bytes[..written]),
                                                    tick := k.world.inodes[i].tick)
      invariant FileSteps(old(k.log), k.log, old(k.world), i)
      invariant k.interrupts <= old(k.interrupts)
      decreases |bytes| - written, k.interrupts
    {
      ghost var before, logged := k.world, k.log;
      var t := k.Write(i, written, bytes[written..]);
      EvolvesTrans(old(k.world), before, k.world);
      match t {
        case Moved(count) =>
          FileStepsSnoc(old(k.log), logged, old(k.world), i, Step(ChangeFile(i), before, k.world, k.mine));
          if count == 0 {
            return false;
          }
          OverwriteTwice(was.data, bytes, written, count);
          written := written + count;
        case Interrupted =>
        case TransferFailed =>
          return false;
      }
    }
    assert bytes[..written] == bytes;
    ok := true;
  }

  lemma OverwriteTwice(content: seq<u8>, bytes: seq<u8>, written: nat, count: nat)
    requires written + count <= |bytes|
    ensures Overwrite(Overwrite(content, 0, bytes[..written]), written, bytes[written..][..count])
            == Overwrite(content, 0, bytes[..written + count])
  {}

  method VerifyHeld(k: Kernel, i: Ino, bytes: seq<u8>, uid: nat, links: nat, propertyCode: Code, contentCode: Code)
    returns (r: Result<Metadata, Code>)
    requires k.Valid() && i in k.world.inodes
    modifies k`interrupts
    ensures r.Ok? ==> HeldExact(k.world, i, uid, links, bytes) && r.value == Stat(k.world, i)
    ensures !k.mayFail && HeldExact(k.world, i, uid, links, bytes) ==> r.Ok?
    ensures r.Err? ==> r.error == propertyCode || r.error == contentCode
    ensures k.interrupts <= old(k.interrupts)
  {
    ghost var w := k.world;
    var before := k.FStat(i);
    if before.None? {
      return Err(contentCode);
    }
    var m := before.value;
    assert m == Stat(w, i);
    if !PropertiesAreExact(m, k.world.euid, uid, links) {
      return Err(propertyCode);
    }
    if m.size != |bytes| {
      return Err(contentCode);
    }
    var content := ReadExactly(k, i, |bytes|);
    assert k.world == w;
    if content.None? {
      return Err(contentCode);
    }
    assert content.value == w.inodes[i].data;
    var eof := PReadRetrying(k, i, |bytes|, 1);
    assert k.world == w;
    if eof.None? || eof.value != [] || content.value != bytes {
      return Err(contentCode);
    }
    var after := k.FStat(i);
    if after.None? || after.value != m {
      return Err(contentCode);
    }
    r := Ok(m);
  }

  predicate PropertiesAreExact(m: Metadata, euid: nat, uid: nat, links: nat) {
    m.kind == Regular && euid == uid && m.uid == uid && m.mode == OUTPUT_MODE && m.nlink == links
  }

  method VerifyFinalIdentity(k: Kernel, s: Slot, i: Ino, metadata: Option<Metadata>, uid: nat, length: nat)
    returns (ok: bool)
    requires k.Valid()
    ensures ok ==> FinalExact(k.world, s, i, metadata, uid, length)
    ensures !k.mayFail && FinalExact(k.world, s, i, metadata, uid, length) ==> ok
  {
    var found := k.StatAt(s);
    if !found.Found? {
      return false;
    }
    var m := found.stat;
    ok := m.ino == i && m.kind == Regular && k.world.euid == uid && m.uid == uid && m.mode == OUTPUT_MODE
          && m.nlink == 1 && m.size == length && (metadata.Some? ==> m == metadata.value);
  }

  /** What occupies the final name decides the code. */
  function OccupantCode(m: Metadata, inputs: seq<Snapshot>, protected: seq<Committed>): Code {
    if m.kind == Symlink then OutputSymlink
    else if exists p :: p in protected && p.held == m.ino then CrossOutputAlias
    else if exists s :: s in inputs && s.ino == m.ino then InputAlias
    else OutputExists
  }

  method PreflightFinal(k: Kernel, s: Slot, inputs: seq<Snapshot>, protected: seq<Committed>)
    returns (r: Result<Unit, Code>)
    requires k.Valid()
    ensures r.Ok? ==> s !in k.world.names
    ensures !k.mayFail ==> (r.Ok? <==> s !in k.world.names)
    ensures !k.mayFail && s in k.world.names ==>
              r == Err(OccupantCode(Stat(k.world, k.world.names[s]), inputs, protected))
  {
    var found := k.StatAt(s);
    match found {
      case Found(m) => r := Err(OccupantCode(m, inputs, protected));
      case NoEntry => r := Ok(Unit.Unit);
      case LookupFailed => r := Err(OutputPublish);
    }
  }

  method ClassifyIncumbent(k: Kernel, s: Slot, inputs: seq<Snapshot>, protected: seq<Committed>) returns (code: Code)
    requires k.Valid()
    ensures !k.mayFail ==> code == if s in k.world.names
                                   then OccupantCode(Stat(k.world, k.world.names[s]), inputs, protected)
                                   else OutputPublish
  {
    var found := k.StatAt(s);
    match found {
      case Found(m) => code := OccupantCode(m, inputs, protected);
      case NoEntry => code := OutputPublish;
      case LookupFailed => code := OutputPublish;
    }
  }

  /** Whether a refused system call shows an unsupported filesystem is read off its errno. */
  method PublicationErrno() returns (code: Code)
    ensures code == UnsupportedPublicationProfile || code == OutputPublish
  {
    var profile: bool := *;
    code := if profile then UnsupportedPublicationProfile else OutputPublish;
  }

  // ---- revalidation of a committed output

  method RevalidateCommitted(k: Kernel, c: Committed, bytes: seq<u8>, hooks: Hooks, ghost since: World)
    returns (r: Result<Unit, Code>)
    requires k.Valid() && Evolves(since, k.world) && c.held in k.world.inodes
    modifies k`world, k`interrupts
    ensures k.Valid() && Evolves(since, k.world) && Evolves(old(k.world), k.world)
    ensures hooks.NoHooks? ==> k.world == old(k.world)
    ensures k.interrupts <= old(k.interrupts)
    // the content was read before the name was, yet both hold now
    ensures r.Ok? ==> Intact(k.world, c, bytes)
    ensures hooks.NoHooks? && !k.mayFail && Intact(k.world, c, bytes) ==> r.Ok?
    ensures r.Err? ==> r.error == OutputIdentityUncertain || r.error == OutputIntegrityUncertain
  {
    ghost var w0 := k.world;
    EvolvesRefl(k.world);
    var euidOk := k.Attempt(hooks, since);
    EvolvesTrans(w0, w0, k.world);
    euidOk := euidOk && k.world.euid == c.uid;

    ghost var w1 := k.world;
    var integrityOk := k.Attempt(hooks, since);
    EvolvesTrans(w0, w1, k.world);
    ghost var w2 := k.world;
    assert c.held in k.world.inodes;
    if integrityOk {
      var held := VerifyHeld(k, c.held, bytes, c.uid, 1, OutputIntegrityUncertain, OutputIntegrityUncertain);
      integrityOk := held.Ok? && c.metadata == Some(held.value);
    }

    var identityOk := k.Attempt(hooks, since);
    EvolvesTrans(w0, w2, k.world);
    if identityOk {
      identityOk := VerifyFinalIdentity(k, c.slot, c.held, c.metadata, c.uid, |bytes|);
    }
    if !euidOk || !identityOk {
      r := Err(OutputIdentityUncertain);
    } else if !integrityOk {
      r := Err(OutputIntegrityUncertain);
    } else {
      SameMetadataSameInode(w2, k.world, c.held);
      r := Ok(Unit.Unit);
    }
  }

  ghost predicate GuardHolds(w: World, guard: Guard) {
    && (forall s :: s in guard.inputs ==> Unchanged(w, s))
    && (forall p :: p in guard.prior ==> Intact(w, p.0, p.1))
  }

  method RunGuard(k: Kernel, guard: Guard, hooks: Hooks, ghost since: World) returns (r: Result<Unit, Code>)
    requires k.Valid() && Evolves(since, k.world)
    requires forall s :: s in guard.inputs ==> s.ino in k.world.inodes
    requires forall p :: p in guard.prior ==> p.0.held in k.world.inodes
    modifies k`world, k`interrupts
    ensures k.Valid() && Evolves(since, k.world) && Evolves(old(k.world), k.world)
    ensures hooks.NoHooks? ==> k.world == old(k.world)
    ensures k.interrupts <= old(k.interrupts)
    // every output was seen intact meanwhile, the last one is intact when the guard returns; undisturbed, all are
    ensures r.Ok? ==> AllSeen(old(k.world), k.world, guard.prior)
    ensures r.Ok? && guard.prior != [] ==> var (c, bytes) := guard.prior[|guard.prior| - 1]; Intact(k.world, c, bytes)
    ensures r.Ok? && hooks.NoHooks? ==> forall p :: p in guard.prior ==> Intact(k.world, p.0, p.1)
    ensures hooks.NoHooks? && !k.mayFail && (guard.inputs == [] || old(k.interrupts) == 0)
            && GuardHolds(k.world, guard) ==>
              r.Ok?
  {
    EvolvesRefl(k.world);
    var inputsOk := RevalidateInputs(k, guard.inputs);
    if !inputsOk {
      return Err(InputChanged);
    }
    ghost var w0 := k.world;
    for n := 0 to |guard.prior|
      invariant k.Valid() && Evolves(since, k.world) && Evolves(w0, k.world)
      invariant hooks.NoHooks? ==> k.world == w0
      invariant k.interrupts <= old(k.interrupts)
      invariant n > 0 ==> Intact(k.world, guard.prior[n - 1].0, guard.prior[n - 1].1)
      invariant AllSeen(w0, k.world, guard.prior[..n])
      invariant hooks.NoHooks? ==> forall p :: p in guard.prior[..n] ==> Intact(k.world, p.0, p.1)
    {
      ghost var before := k.world;
      assert guard.prior[n] in guard.prior;
      assert Later(w0, k.world, guard.prior[n].0.held);
      var checked := RevalidateCommitted(k, guard.prior[n].0, guard.prior[n].1, hooks, since);
      EvolvesTrans(w0, before, k.world);
      if checked.Err? {
        return checked;
      }
      SeenNext(w0, before, k.world, guard.prior, n);
    }
    assert guard.prior[..|guard.prior|] == guard.prior;
    r := Ok(Unit.Unit);
  }

  /** Every output was intact in some world between these two. */
  ghost predicate AllSeen(w: World, v: World, outputs: seq<(Committed, seq<u8>)>) {
    forall p :: p in outputs ==> SeenIntact(w, v, p.0, p.1)
  }

  ghost predicate SeenIntact(w: World, v: World, c: Committed, bytes: seq<u8>) {
    exists u :: Evolves(w, u) && Evolves(u, v) && Intact(u, c, bytes)
  }

  lemma SeenBetween(w: World, u: World, v: World, c: Committed, bytes: seq<u8>)
    requires Evolves(w, u) && Evolves(u, v) && Intact(u, c, bytes)
    ensures SeenIntact(w, v, c, bytes) && Evolves(w, v)
  {
    EvolvesTrans(w, u, v);
  }

  lemma SeenLonger(a: World, w: World, v: World, b: World, c: Committed, bytes: seq<u8>)
    requires Evolves(a, w) && SeenIntact(w, v, c, bytes) && Evolves(v, b)
    ensures SeenIntact(a, b, c, bytes)
  {
    var u :| Evolves(w, u) && Evolves(u, v) && Intact(u, c, bytes);
    EvolvesTrans(a, w, u);
    EvolvesTrans(u, v, b);
  }

  lemma SeenNext(w: World, v: World, u: World, outputs: seq<(Committed, seq<u8>)>, n: nat)
    requires n < |outputs| && WellFormed(w) && Evolves(v, u) && Evolves(w, u)
    requires AllSeen(w, v, outputs[..n]) && Intact(u, outputs[n].0, outputs[n].1)
    ensures AllSeen(w, u, outputs[..n + 1])
  {
    EvolvesRefl(w);
    EvolvesRefl(u);
    SeenBetween(w, u, u, outputs[n].0, outputs[n].1);
    forall p | p in outputs[..n] ensures SeenIntact(w, u, p.0, p.1) {
      SeenLonger(w, w, v, u, p.0, p.1);
    }
  }

  /** The last recorded step lies behind the world `w`. */
  ghost predicate AfterLast(log: seq<Step>, w: World) { log != [] && Evolves(log[|log| - 1].post, w) }

  /** Since the last recorded step every output was seen intact. */
  ghost predicate SeenSinceLast(log: seq<Step>, w: World, outputs: seq<(Committed, seq<u8>)>) {
    log != [] && AllSeen(log[|log| - 1].post, w, outputs)
  }

  lemma SeenAfterLast(log: seq<Step>, w: World, v: World, outputs: seq<(Committed, seq<u8>)>)
    requires AfterLast(log, w) && AllSeen(w, v, outputs) && Evolves(w, v)
    ensures SeenSinceLast(log, v, outputs)
  {
    EvolvesRefl(v);
    forall p | p in outputs ensures SeenIntact(log[|log| - 1].post, v, p.0, p.1) {
      SeenLonger(log[|log| - 1].post, w, v, v, p.0, p.1);
    }
  }

  // ---- commit

  /** The inodes created since are new to the world `w`, and none of them has a name in `v`. */
  ghost predicate Nameless(before: set<Ino>, after: set<Ino>, w: World, v: World) {
    && before <= after
    && forall j :: j in after && j !in before ==> j !in w.inodes && j in v.inodes && Slots(v, j) == {}
  }

  /** `after` extends `before` by steps after which the world is still `w` with inodes added. */
  ghost predicate StepsAdd(before: seq<Step>, after: seq<Step>, w: World) {
    before <= after && forall n :: |before| <= n < |after| ==> Adds(w, after[n].post)
  }

  lemma OnlyFileAdds(w: World, v: World, u: World, i: Ino)
    requires Adds(w, v) && i !in w.inodes && OnlyFile(v, u, i)
    ensures Adds(w, u)
  {}

  /** The effective user and the final name are looked at before anything is created. */
  method BeforeTemporary(k: Kernel, p: Prepared, inputs: seq<Snapshot>, protected: seq<Committed>, hooks: Hooks)
    returns (r: Result<Unit, Code>)
    requires k.Valid()
    modifies k`world
    ensures k.Valid() && Evolves(old(k.world), k.world)
    ensures hooks.NoHooks? ==> k.world == old(k.world)
    ensures hooks.NoHooks? && !k.mayFail && p.slot !in old(k.world).names && old(k.world).euid == p.uid ==> r.Ok?
    ensures hooks.NoHooks? && p.slot in old(k.world).names ==> r.Err?
  {
    ghost var w0 := k.world;
    EvolvesRefl(w0);
    var ok := k.Attempt(hooks, w0);
    if !ok { return Err(OutputPublish); }
    if k.world.euid != p.uid { return Err(UnsupportedPublicationProfile); }
    ok := k.Attempt(hooks, w0);
    if !ok { return Err(OutputPublish); }
    r := PreflightFinal(k, p.slot, inputs, protected);
    if r.Err? { return; }
    ok := k.Attempt(hooks, w0);
    if !ok { return Err(OutputPublish); }
  }

  /** Create the anonymous inode, write the bytes, set the mode, and read everything back. */
  method WriteTemporary(k: Kernel, p: Prepared, bytes: seq<u8>, inputs: seq<Snapshot>, protected: seq<Committed>,
                        hooks: Hooks)
    returns (r: Result<Ino, Code>)
    requires k.Valid()
    modifies k
    ensures k.Valid() && Evolves(old(k.world), k.world) && (old(k.Clean()) ==> k.Clean())
    ensures k.interrupts <= old(k.interrupts)
    ensures NamesNothing(old(k.log), k.log) && Nameless(old(k.mine), k.mine, old(k.world), k.world)
    ensures r.Ok? ==> k.mine == old(k.mine) + {r.value} && r.value !in old(k.world).inodes
    ensures r.Ok? ==> HeldExact(k.world, r.value, p.uid, 0, bytes)
    ensures hooks.NoHooks? ==> Adds(old(k.world), k.world) && StepsAdd(old(k.log), k.log, old(k.world))
    ensures hooks.NoHooks? && !k.mayFail && p.slot !in old(k.world).names && old(k.world).euid == p.uid ==> r.Ok?
    ensures hooks.NoHooks? && p.slot in old(k.world).names ==> r.Err?
  {
    ghost var w0 := k.world;
    var free := BeforeTemporary(k, p, inputs, protected, hooks);
    if free.Err? { return Err(free.error); }
    ghost var w1 := k.world;
    var temporary := k.OpenTemporary(p.slot.dir);
    EvolvesTrans(w0, w1, k.world);
    if temporary.Err? {
      return Err(if temporary.error then UnsupportedPublicationProfile else OutputPublish);
    }
    var i := temporary.value;
    assert i !in w0.inodes;
    r := FillTemporary(k, i, p, bytes, hooks, w0);
  }

  /** A nameless inode of this call, in a world that is otherwise an evolution of `w0`. */
  ghost predicate Temporary(k: Kernel, i: Ino, hooks: Hooks, w0: World)
    reads k
  {
    && k.Valid() && i in k.world.inodes && i in k.mine && i !in w0.inodes && Evolves(w0, k.world)
    && Slots(k.world, i) == {} && k.world.inodes[i].kind == Regular
    && (hooks.NoHooks? ==> Adds(w0, k.world))
  }

  method AttemptTemporary(k: Kernel, i: Ino, hooks: Hooks, ghost w0: World) returns (ok: bool)
    requires Temporary(k, i, hooks, w0)
    modifies k`world
    ensures Temporary(k, i, hooks, w0) && Evolves(old(k.world), k.world)
    ensures hooks.NoHooks? ==> ok && k.world == old(k.world)
  {
    ghost var w := k.world;
    ok := k.Attempt(hooks, w0);
    assert Later(w, k.world, i);
  }

  method WriteStage(k: Kernel, i: Ino, bytes: seq<u8>, hooks: Hooks, ghost w0: World) returns (ok: bool)
    requires Temporary(k, i, hooks, w0)
    modifies k
    ensures Temporary(k, i, hooks, w0) && (old(k.Clean()) ==> k.Clean())
    ensures k.mine == old(k.mine) && k.interrupts <= old(k.interrupts)
    ensures NamesNothing(old(k.log), k.log) && (hooks.NoHooks? ==> StepsAdd(old(k.log), k.log, w0))
    ensures hooks.NoHooks? && ok ==>
              && k.world.inodes[i].data == Overwrite(old(k.world).inodes[i].data, 0, bytes)
              && k.world.inodes[i].uid == old(k.world).inodes[i].uid
    ensures hooks.NoHooks? && !k.mayFail ==> ok
  {
    ok := AttemptTemporary(k, i, hooks, w0);
    if !ok { return; }
    ghost var wb, lb := k.world, k.log;
    ok := WriteAll(k, i, bytes);
    EvolvesTrans(w0, wb, k.world);
    AddsSlots(wb, k.world);
    forall n | hooks.NoHooks? && |lb| <= n < |k.log|
      ensures Adds(w0, k.log[n].post)
    {
      OnlyFileAdds(w0, wb, k.log[n].post, i);
    }
  }

  method ChmodStage(k: Kernel, i: Ino, hooks: Hooks, ghost w0: World) returns (ok: bool)
    requires Temporary(k, i, hooks, w0)
    modifies k
    ensures Temporary(k, i, hooks, w0) && (old(k.Clean()) ==> k.Clean())
    ensures k.mine == old(k.mine) && k.interrupts <= old(k.interrupts)
    ensures NamesNothing(old(k.log), k.log) && (hooks.NoHooks? ==> StepsAdd(old(k.log), k.log, w0))
    ensures hooks.NoHooks? && ok ==>
              k.world.inodes[i] == old(k.world).inodes[i].(mode := OUTPUT_MODE, tick := k.world.inodes[i].tick)
    ensures hooks.NoHooks? && !k.mayFail ==> ok
  {
    ok := AttemptTemporary(k, i, hooks, w0);
    if !ok { return; }
    ghost var wb := k.world;
    ok := k.FChmod(i, OUTPUT_MODE);
    EvolvesTrans(w0, wb, k.world);
    AddsSlots(wb, k.world);
  }

  /** The part of `WriteTemporary` that follows the creation of the inode `i`. */
  method FillTemporary(k: Kernel, i: Ino, p: Prepared, bytes: seq<u8>, hooks: Hooks, ghost w0: World)
    returns (r: Result<Ino, Code>)
    requires Temporary(k, i, hooks, w0)
    requires hooks.NoHooks? ==> k.world.inodes[i].data == [] && k.world.inodes[i].uid == k.world.euid
    modifies k
    ensures Temporary(k, i, hooks, w0) && (old(k.Clean()) ==> k.Clean())
    ensures k.mine == old(k.mine) && k.interrupts <= old(k.interrupts)
    ensures NamesNothing(old(k.log), k.log) && (hooks.NoHooks? ==> StepsAdd(old(k.log), k.log, w0))
    ensures r.Ok? ==> r.value == i && HeldExact(k.world, i, p.uid, 0, bytes)
    ensures hooks.NoHooks? && !k.mayFail && k.world.euid == p.uid ==> r.Ok?
  {
    var flags := k.Fault();
    if flags {
      var profile: bool := *;
      return Err(if profile then UnsupportedPublicationProfile else OutputPublish);
    }
    var ok := WriteStage(k, i, bytes, hooks, w0);
    if !ok { return Err(OutputPublish); }
    ok := ChmodStage(k, i, hooks, w0);
    if !ok { return Err(OutputPublish); }
    ok := AttemptTemporary(k, i, hooks, w0);
    if !ok { return Err(OutputPublish); }
    assert Overwrite([], 0, bytes) == bytes;
    var verified := VerifyHeld(k, i, bytes, p.uid, 0, UnsupportedPublicationProfile, OutputPublish);
    if verified.Err? { return Err(verified.error); }
    r := Ok(i);
  }

  /** Sync the file and the directory, and check that procfs leads back to the held inode. */
  method SyncTemporary(k: Kernel, i: Ino, p: Prepared, hooks: Hooks, ghost since: World) returns (r: Result<Unit, Code>)
    requires k.Valid() && i in k.world.inodes && Evolves(since, k.world)
    modifies k`world
    ensures k.Valid() && Evolves(since, k.world) && Evolves(old(k.world), k.world)
    ensures hooks.NoHooks? ==> k.world == old(k.world) || k.world == Sync(old(k.world), i)
    ensures hooks.NoHooks? && r.Ok? ==> k.world == Sync(old(k.world), i)
    ensures hooks.NoHooks? && !k.mayFail ==> r.Ok?
  {
    ghost var w0 := k.world;
    EvolvesRefl(w0);
    var ok := k.Attempt(hooks, since);
    if !ok { return Err(OutputPublish); }
    ghost var w1 := k.world;
    assert Later(w0, w1, i);
    ok := k.FSync(i);
    EvolvesTrans(since, w1, k.world);
    EvolvesTrans(w0, w1, k.world);
    if !ok { return Err(OutputPublish); }
    ghost var w2 := k.world;
    ok := k.Attempt(hooks, since);
    EvolvesTrans(w0, w2, k.world);
    if !ok { return Err(OutputPublish); }
    ok := k.FSyncDirectory(p.slot.dir);
    if !ok {
      var code := PublicationErrno();
      return Err(code);
    }
    ghost var w3 := k.world;
    ok := k.Attempt(hooks, since);
    EvolvesTrans(w0, w3, k.world);
    if !ok { return Err(OutputPublish); }
    var failed := k.Fault();
    if failed { return Err(UnsupportedPublicationProfile); }
    failed := k.Fault();
    if failed { return Err(OutputPublish); }
    ghost var w4 := k.world;
    ok := k.Attempt(hooks, since);
    EvolvesTrans(w0, w4, k.world);
    if !ok { return Err(OutputPublish); }
    failed := k.Fault();
    r := if failed then Err(UnsupportedPublicationProfile) else Ok(Unit.Unit);
  }

  /** The link is the last thing before which the guard ran. */
  ghost predicate GuardLast(w: World, guard: Guard) {
    guard.prior != [] ==> var (c, bytes) := guard.prior[|guard.prior| - 1]; Intact(w, c, bytes)
  }

  ghost predicate GuardHeld(w: World, guard: Guard) {
    && (forall s :: s in guard.inputs ==> s.ino in w.inodes)
    && (forall p :: p in guard.prior ==> p.0.held in w.inodes)
  }

  /** The stages before the link: the name is looked up again, and the guard runs last. */
  method BeforeLink(k: Kernel, i: Ino, p: Prepared, inputs: seq<Snapshot>, protected: seq<Committed>, hooks: Hooks,
                    guard: Guard, ghost w0: World)
    returns (r: Result<Unit, Code>)
    requires Temporary(k, i, hooks, w0) && GuardHeld(k.world, guard)
    modifies k`world, k`interrupts
    ensures Temporary(k, i, hooks, w0) && k.interrupts <= old(k.interrupts)
    ensures r.Ok? ==> GuardLast(k.world, guard)
    ensures hooks.NoHooks? ==> k.world == old(k.world)
    ensures hooks.NoHooks? && !k.mayFail && p.slot !in old(k.world).names && GuardHolds(old(k.world), guard)
            ==> (guard.inputs == [] || old(k.interrupts) == 0) ==> r.Ok?
  {
    var ok := AttemptTemporary(k, i, hooks, w0);
    if !ok { return Err(OutputPublish); }
    ok := AttemptTemporary(k, i, hooks, w0);
    if !ok { return Err(OutputPublish); }
    var free := PreflightFinal(k, p.slot, inputs, protected);
    if free.Err? { return free; }
    ok := AttemptTemporary(k, i, hooks, w0);
    if !ok { return Err(OutputPublish); }
    ok := AttemptTemporary(k, i, hooks, w0);
    if !ok { return Err(OutputPublish); }
    ghost var w := k.world;
    r := RunGuard(k, guard, hooks, w0);
    assert Later(w, k.world, i);
  }

  method LinkTemporary(k: Kernel, i: Ino, p: Prepared, inputs: seq<Snapshot>, protected: seq<Committed>, hooks: Hooks,
                       guard: Guard, ghost w0: World)
    returns (r: Result<Unit, Code>, ghost pre: World)
    requires Temporary(k, i, hooks, w0) && GuardHeld(k.world, guard)
    modifies k`world, k`interrupts, k`log
    ensures k.Valid() && Evolves(w0, k.world) && k.mine == old(k.mine) && (old(k.Clean()) ==> k.Clean())
    ensures k.interrupts <= old(k.interrupts)
    ensures r.Err? ==> Temporary(k, i, hooks, w0) && k.log == old(k.log)
    ensures r.Ok? ==>
              && p.slot !in pre.names && i in pre.inodes && k.world == Bind(pre, p.slot, i)
              && Slots(k.world, i) == {p.slot}
              && k.log == old(k.log) + [Step(Link(p.slot, i), pre, k.world, k.mine)]
              && GuardLast(pre, guard)
    ensures hooks.NoHooks? ==> pre == old(k.world)
    ensures hooks.NoHooks? && !k.mayFail && p.slot !in old(k.world).names && GuardHolds(old(k.world), guard)
            ==> (guard.inputs == [] || old(k.interrupts) == 0) ==> r.Ok?
  {
    pre := k.world;
    var free := BeforeLink(k, i, p, inputs, protected, hooks, guard, w0);
    pre := k.world;
    if free.Err? { return Err(free.error), pre; }
    var linked := k.LinkAt(i, p.slot, w0);
    match linked {
      case Named => r := Ok(Unit.Unit);
      case NameFailed =>
        var code := PublicationErrno();
        r := Err(code);
      case Occupied =>
        var ok := AttemptTemporary(k, i, hooks, w0);
        pre := k.world;
        if !ok { return Err(OutputPublish), pre; }
        var code := ClassifyIncumbent(k, p.slot, inputs, protected);
        r := Err(code);
    }
  }

  /** The source descriptor is looked at again and the directory synced. */
  method SourceAndSync(k: Kernel, c: Committed, hooks: Hooks, ghost since: World) returns (sourceOk: bool, syncOk: bool)
    requires k.Valid() && Evolves(since, k.world)
    modifies k`world
    ensures k.Valid() && Evolves(since, k.world) && Evolves(old(k.world), k.world)
    ensures hooks.NoHooks? ==> k.world == old(k.world)
    ensures hooks.NoHooks? && !k.mayFail ==> sourceOk && syncOk
  {
    ghost var w0 := k.world;
    sourceOk := k.Attempt(hooks, since);
    if sourceOk {
      var failed := k.Fault();
      sourceOk := !failed;
    }
    ghost var w1 := k.world;
    syncOk := k.Attempt(hooks, since);
    EvolvesTrans(w0, w1, k.world);
    if syncOk {
      syncOk := k.FSyncDirectory(c.slot.dir);
    }
  }

  /** The checks after the link; every one is made, and the worst finding is reported. */
  method PostlinkChecks(k: Kernel, c: Committed, bytes: seq<u8>, hooks: Hooks, ghost since: World)
    returns (r: Result<Unit, Code>)
    requires k.Valid() && Evolves(since, k.world) && c.held in k.world.inodes
    modifies k`world, k`interrupts
    ensures k.Valid() && Evolves(since, k.world) && Evolves(old(k.world), k.world)
    ensures hooks.NoHooks? ==> k.world == old(k.world)
    ensures k.interrupts <= old(k.interrupts)
    ensures r.Ok? ==> Intact(k.world, c, bytes)
    ensures hooks.NoHooks? && !k.mayFail && Intact(k.world, c, bytes) ==> r.Ok?
    ensures r.Err? ==> r.error in {OutputIdentityUncertain, OutputIntegrityUncertain, DurabilityUncertain}
    // undisturbed, a durability finding alone means the file is intact
    ensures hooks.NoHooks? && r == Err(DurabilityUncertain) ==> Intact(k.world, c, bytes)
  {
    ghost var w0 := k.world;
    var sourceOk, syncOk := SourceAndSync(k, c, hooks, since);
    ghost var w2 := k.world;
    var attempted := k.Attempt(hooks, since);
    EvolvesTrans(w0, w2, k.world);
    assert Later(w0, k.world, c.held);
    var integrity: Option<Metadata> := None;
    if attempted {
      var held := VerifyHeld(k, c.held, bytes, c.uid, 1, OutputIntegrityUncertain, OutputIntegrityUncertain);
      if held.Ok? && c.metadata == Some(held.value) {
        integrity := Some(held.value);
      }
    }
    ghost var w3 := k.world;
    var identityOk := k.Attempt(hooks, since);
    EvolvesTrans(w0, w3, k.world);
    assert Later(w0, k.world, c.held);
    if identityOk {
      var final := VerifyHeld(k, c.held, bytes, c.uid, 1, OutputIdentityUncertain, OutputIdentityUncertain);
      if integrity.Some? && !(final.Ok? && final.value == integrity.value && c.metadata == Some(final.value)) {
        identityOk := false;
      } else {
        var expected := if final.Ok? then Some(final.value) else None;
        identityOk := VerifyFinalIdentity(k, c.slot, c.held, expected, c.uid, |bytes|);
      }
    }
    if !sourceOk || !identityOk {
      r := Err(OutputIdentityUncertain);
    } else if integrity.None? {
      r := Err(OutputIntegrityUncertain);
    } else if !syncOk {
      r := Err(DurabilityUncertain);
    } else {
      r := Ok(Unit.Unit);
    }
  }

  /** `v` is `w` with the new name `s` for the new inode `i`, and inodes added. */
  ghost predicate AddsName(w: World, v: World, s: Slot, i: Ino) {
    && s !in w.names && i !in w.inodes
    && v.names == w.names[s := i]
    && v.euid == w.euid
    && DiskKept(w, v)
    && forall j :: j in w.inodes ==> j in v.inodes && v.inodes[j] == w.inodes[j]
  }

  /** `after` extends `before` by steps of which exactly one names anything: a link of `i` under `s`, at which the last
      output the guard protects is intact. */
  ghost predicate CommitSteps(before: seq<Step>, after: seq<Step>, s: Slot, i: Ino, guard: Guard) {
    && before <= after
    && (exists n :: |before| <= n < |after| && after[n].op == Link(s, i))
    && (forall n :: |before| <= n < |after| && Target(after[n].op) != None ==>
                      after[n].op == Link(s, i) && GuardLast(after[n].pre, guard))
    && (forall m, n :: |before| <= m < n < |after| && Target(after[m].op) != None ==> Target(after[n].op) == None)
  }

  /** In a run of one call alone: after each step the name is free, or it leads to the complete file. */
  ghost predicate QuietSteps(before: seq<Step>, after: seq<Step>, w: World, s: Slot, i: Ino, uid: nat, bytes: seq<u8>) {
    && before <= after
    && forall n :: |before| <= n < |after| ==>
                     || Adds(w, after[n].post)
                     || (AddsName(w, after[n].post, s, i) && Published(after[n].post, s, i, uid, bytes)
                         && OnDisk(after[n].pre, i, bytes))
  }

  method CommitWithHooks(k: Kernel, p: Prepared, bytes: seq<u8>, inputs: seq<Snapshot>, protected: seq<Committed>,
                         hooks: Hooks, guard: Guard)
    returns (r: CommitResult)
    requires k.Valid() && GuardHeld(k.world, guard)
    modifies k
    ensures k.Valid() && Evolves(old(k.world), k.world) && (old(k.Clean()) ==> k.Clean())
    ensures k.interrupts <= old(k.interrupts)
    // before the link nothing is left behind; after it exactly one inode of this call has a name or had one
    ensures r.PreLink? ==> NamesNothing(old(k.log), k.log) && Nameless(old(k.mine), k.mine, old(k.world), k.world)
    ensures r.Linked() ==>
              var c := r.committed;
              && c.slot == p.slot && c.uid == p.uid && c.held !in old(k.world).inodes && c.held in k.world.inodes
              && k.mine == old(k.mine) + {c.held}
              && CommitSteps(old(k.log), k.log, p.slot, c.held, guard)
    ensures r.Linked() ==> AfterLast(k.log, k.world)
    ensures r.Done? ==> Intact(k.world, r.committed, bytes)
    ensures r.PostLink? ==> r.error in {OutputIdentityUncertain, OutputIntegrityUncertain, DurabilityUncertain}
    ensures hooks.NoHooks? && r.PostLink? ==> k.mayFail
    ensures hooks.NoHooks? && r.PreLink? ==> Adds(old(k.world), k.world) && StepsAdd(old(k.log), k.log, old(k.world))
    ensures hooks.NoHooks? && r.Linked() ==>
              var c := r.committed;
              && AddsName(old(k.world), k.world, c.slot, c.held) && Published(k.world, c.slot, c.held, c.uid, bytes)
              && OnDisk(k.world, c.held, bytes)
              && QuietSteps(old(k.log), k.log, old(k.world), c.slot, c.held, c.uid, bytes)
    ensures hooks.NoHooks? && !k.mayFail && p.slot !in old(k.world).names && old(k.world).euid == p.uid
            && GuardHolds(old(k.world), guard)
            ==> (guard.inputs == [] || old(k.interrupts) == 0) ==> r.Done?
  {
    ghost var w0, l0 := k.world, k.log;
    var temporary := PrepareTemporary(k, p, bytes, inputs, protected, hooks);
    if temporary.Err? {
      return PreLink(temporary.error);
    }
    ghost var w1, l1 := k.world, k.log;
    if hooks.NoHooks? && GuardHolds(w0, guard) {
      GuardHoldsAdds(w0, w1, guard);
    }
    r := CommitTemporary(k, temporary.value, p, bytes, inputs, protected, hooks, guard, w0);
    if r.Linked() {
      OneLinkAfter(l0, l1, k.log, p.slot, temporary.value, guard);
      if hooks.NoHooks? {
        QuietAfter(l0, l1, k.log, w0, p.slot, temporary.value, p.uid, bytes);
      }
    }
  }

  lemma QuietAfter(l0: seq<Step>, l1: seq<Step>, l2: seq<Step>, w: World, s: Slot, i: Ino, uid: nat, bytes: seq<u8>)
    requires StepsAdd(l0, l1, w) && l1 <= l2 && |l2| == |l1| + 1
    requires AddsName(w, l2[|l1|].post, s, i) && Published(l2[|l1|].post, s, i, uid, bytes)
    requires OnDisk(l2[|l1|].pre, i, bytes)
    ensures QuietSteps(l0, l2, w, s, i, uid, bytes)
  {}

  lemma OneLinkAfter(l0: seq<Step>, l1: seq<Step>, l2: seq<Step>, s: Slot, i: Ino, guard: Guard)
    requires NamesNothing(l0, l1) && l1 <= l2 && |l2| == |l1| + 1
    requires l2[|l1|].op == Link(s, i) && GuardLast(l2[|l1|].pre, guard)
    ensures CommitSteps(l0, l2, s, i, guard)
  {}

  /** Everything up to the link: on success a synced nameless inode, still exact when nobody interferes. */
  method PrepareTemporary(k: Kernel, p: Prepared, bytes: seq<u8>, inputs: seq<Snapshot>, protected: seq<Committed>,
                          hooks: Hooks)
    returns (r: Result<Ino, Code>)
    requires k.Valid()
    modifies k
    ensures k.Valid() && Evolves(old(k.world), k.world) && (old(k.Clean()) ==> k.Clean())
    ensures k.interrupts <= old(k.interrupts)
    ensures NamesNothing(old(k.log), k.log) && Nameless(old(k.mine), k.mine, old(k.world), k.world)
    ensures r.Ok? ==> Temporary(k, r.value, hooks, old(k.world)) && k.mine == old(k.mine) + {r.value}
    ensures hooks.NoHooks? ==> Adds(old(k.world), k.world) && StepsAdd(old(k.log), k.log, old(k.world))
    ensures hooks.NoHooks? && r.Ok? ==>
              && HeldExact(k.world, r.value, p.uid, 0, bytes)
              && OnDisk(k.world, r.value, bytes)
    ensures hooks.NoHooks? && !k.mayFail && p.slot !in old(k.world).names && old(k.world).euid == p.uid ==> r.Ok?
  {
    ghost var w0, m0 := k.world, k.mine;
    r := WriteTemporary(k, p, bytes, inputs, protected, hooks);
    if r.Err? {
      return;
    }
    ghost var w1 := k.world;
    assert Slots(w1, r.value) == {};
    var synced := SyncTemporary(k, r.value, p, hooks, w0);
    assert Later(w1, k.world, r.value);
    AddsSlots(w1, w1.(disk := k.world.disk));
    if synced.Err? {
      r := Err(synced.error);
    }
  }

  /** The link of a prepared inode, and the checks after it. */
  method CommitTemporary(k: Kernel, i: Ino, p: Prepared, bytes: seq<u8>, inputs: seq<Snapshot>,
                         protected: seq<Committed>, hooks: Hooks, guard: Guard, ghost w0: World)
    returns (r: CommitResult)
    requires Temporary(k, i, hooks, w0) && GuardHeld(k.world, guard)
    requires hooks.NoHooks? ==> HeldExact(k.world, i, p.uid, 0, bytes) && OnDisk(k.world, i, bytes)
    modifies k`world, k`interrupts, k`log
    ensures k.Valid() && Evolves(w0, k.world) && (old(k.Clean()) ==> k.Clean())
    ensures k.interrupts <= old(k.interrupts)
    ensures r.PreLink? ==> Temporary(k, i, hooks, w0) && k.log == old(k.log)
    ensures r.Linked() ==>
              var c := r.committed;
              && c.slot == p.slot && c.uid == p.uid && c.held == i && i in k.world.inodes
              && |k.log| == |old(k.log)| + 1 && old(k.log) <= k.log
              && k.log[|old(k.log)|].op == Link(p.slot, i) && GuardLast(k.log[|old(k.log)|].pre, guard)
    ensures r.Linked() ==> AfterLast(k.log, k.world)
    ensures r.Done? ==> Intact(k.world, r.committed, bytes)
    ensures r.PostLink? ==> r.error in {OutputIdentityUncertain, OutputIntegrityUncertain, DurabilityUncertain}
    ensures hooks.NoHooks? && r.PostLink? ==> k.mayFail
    ensures hooks.NoHooks? && r.Linked() ==>
              var c := r.committed;
              && AddsName(w0, k.world, c.slot, i) && Published(k.world, c.slot, i, c.uid, bytes)
              && OnDisk(k.world, i, bytes)
              && k.log[|old(k.log)|].post == k.world && k.log[|old(k.log)|].pre == old(k.world)
    ensures hooks.NoHooks? && !k.mayFail && p.slot !in old(k.world).names && GuardHolds(old(k.world), guard)
            ==> (guard.inputs == [] || old(k.interrupts) == 0) ==> r.Done?
  {
    ghost var w2 := k.world;
    var linked, pre := LinkTemporary(k, i, p, inputs, protected, hooks, guard, w0);
    if linked.Err? {
      return PreLink(linked.error);
    }
    ghost var w3 := k.world;
    var metadata := k.FStat(i);
    var c := Committed(i, p.slot, metadata, p.uid);
    if hooks.NoHooks? {
      LinkPublishes(w0, w2, w3, p.slot, i, p.uid, bytes);
    }
    var checked := PostlinkChecks(k, c, bytes, hooks, w0);
    r := if checked.Ok? then Done(c) else PostLink(c, checked.error);
  }

  lemma GuardHoldsAdds(w: World, v: World, guard: Guard)
    requires Adds(w, v) && GuardHolds(w, guard)
    ensures GuardHolds(v, guard)
  {}

  lemma LinkPublishes(w0: World, w: World, v: World, s: Slot, i: Ino, uid: nat, bytes: seq<u8>)
    requires Adds(w0, w) && i !in w0.inodes && HeldExact(w, i, uid, 0, bytes) && s !in w.names && v == Bind(w, s, i)
    ensures AddsName(w0, v, s, i) && Published(v, s, i, uid, bytes)
  {
    assert Slots(v, i) == {s} by {
      assert Slots(w, i) == {};
    }
  }

  // ---- preparation

  /** Walk to the parent directory of an output and check that its name is free. */
  method PrepareWithHooks(k: Kernel, path: ParsedPath, inputs: seq<Snapshot>, uid: nat, hooks: Hooks)
    returns (r: Result<Prepared, Code>)
    requires k.Valid()
    modifies k`world
    ensures k.Valid() && Evolves(old(k.world), k.world)
    ensures r.Ok? ==> r.value.uid == uid && r.value.slot.name == path.finalName && r.value.slot.dir in k.world.inodes
    ensures hooks.NoHooks? ==> k.world == old(k.world)
    ensures hooks.NoHooks? && r.Ok? ==> OutputSlot(k, k.world, path) == Some(r.value.slot)
    ensures hooks.NoHooks? && r.Ok? ==> k.world.euid == uid && r.value.slot !in k.world.names
    ensures hooks.NoHooks? && !k.mayFail && k.world.euid == uid ==>
              (r.Ok? <==> OutputSlot(k, k.world, path).Some? && OutputSlot(k, k.world, path).value !in k.world.names)
  {
    ghost var w0 := k.world;
    EvolvesRefl(w0);
    if k.world.euid != uid { return Err(UnsupportedPublicationProfile); }
    var parent := WalkToParent(k, path, hooks, w0);
    if parent.Err? { return Err(parent.error); }
    var ok := k.Attempt(hooks, w0);
    if !ok { return Err(OutputPublish); }
    var parentSync := k.Reopen(parent.value);
    if parentSync.None? {
      var profile: bool := *;
      return Err(if profile then UnsupportedPublicationProfile else OutputPublish);
    }
    ok := k.Attempt(hooks, w0);
    if !ok { return Err(OutputPublish); }
    var slot := Slot(parent.value, path.finalName);
    var free := PreflightFinal(k, slot, inputs, []);
    if free.Err? { return Err(free.error); }
    r := Ok(Prepared(slot, uid));
  }

  /** Pin the start of a path and follow its ancestors, one directory at a time. */
  method WalkToParent(k: Kernel, path: ParsedPath, hooks: Hooks, ghost since: World) returns (r: Result<Ino, Code>)
    requires k.Valid() && Evolves(since, k.world)
    modifies k`world
    ensures k.Valid() && Evolves(since, k.world)
    ensures r.Ok? ==> r.value in k.world.inodes
    ensures hooks.NoHooks? ==> k.world == old(k.world)
    ensures hooks.NoHooks? && r.Ok? ==> OutputSlot(k, k.world, path) == Some(Slot(r.value, path.finalName))
    ensures hooks.NoHooks? && !k.mayFail ==> (r.Ok? <==> OutputSlot(k, k.world, path).Some?)
    ensures r.Err? ==> r.error == OutputPublish || r.error == OutputSymlink
  {
    ghost var w0 := k.world;
    var ok := k.Attempt(hooks, since);
    if !ok { return Err(OutputPublish); }
    var start := k.PinStart(path.absolute);
    if start.None? { return Err(OutputPublish); }
    var parent := start.value;
    for index := 0 to |path.ancestors|
      invariant k.Valid() && Evolves(since, k.world) && parent in k.world.inodes
      invariant hooks.NoHooks? ==>
                  && k.world == w0
                  && Resolve(w0, start.value, path.ancestors) == Resolve(w0, parent, path.ancestors[index..])
    {
      assert path.ancestors[index..][1..] == path.ancestors[index + 1..];
      var slot := Slot(parent, path.ancestors[index]);
      var observed := k.StatAt(slot);
      if !observed.Found? { return Err(OutputPublish); }
      if observed.stat.kind != Directory {
        return Err(if observed.stat.kind == Symlink then OutputSymlink else OutputPublish);
      }
      ok := k.Attempt(hooks, since);
      if !ok { return Err(OutputPublish); }
      var directory := k.OpenDirectory(slot);
      if directory.None? { return Err(OutputPublish); }
      var pinned := k.FStat(directory.value);
      if pinned.None? || pinned.value.kind != Directory || pinned.value.ino != observed.stat.ino {
        return Err(OutputPublish);
      }
      parent := directory.value;
    }
    var failed := k.Fault();
    r := if failed then Err(OutputPublish) else Ok(parent);
  }

  /** The slot that a path denotes. */
  function OutputSlot(k: Kernel, w: World, path: ParsedPath): Option<Slot>
    requires WellFormed(w)
  {
    match Resolve(w, if path.absolute then k.root else k.cwd, path.ancestors)
    case None => None
    case Some(dir) => Some(Slot(dir, path.finalName))
  }

  predicate ValidRelativeName(name: Name) {
    name != "" && name != "." && name != ".." && '\0' !in name && '/' !in name
  }

  method PrepareRelative(k: Kernel, dir: Ino, name: Name, inputs: seq<Snapshot>, uid: nat)
    returns (r: Result<Prepared, Code>)
    requires k.Valid() && dir in k.world.inodes
    ensures r.Ok? ==> r.value == Prepared(Slot(dir, name), uid) && Slot(dir, name) !in k.world.names
    ensures !k.mayFail && k.world.euid == uid ==>
              (r.Ok? <==> ValidRelativeName(name) && Slot(dir, name) !in k.world.names)
  {
    if k.world.euid != uid || !ValidRelativeName(name) { return Err(UnsafeOutputPath); }
    var parentPath := k.Reopen(dir);
    if parentPath.None? { return Err(OutputPublish); }
    var parentSync := k.Reopen(dir);
    if parentSync.None? {
      var profile: bool := *;
      return Err(if profile then UnsupportedPublicationProfile else OutputPublish);
    }
    var free := PreflightFinal(k, Slot(dir, name), inputs, []);
    if free.Err? { return Err(free.error); }
    r := Ok(Prepared(Slot(dir, name), uid));
  }

  // ---- one output

  /** A failure after the link leaves the linked file in place. */
  method Publish(k: Kernel, path: ParsedPath, bytes: seq<u8>, inputs: seq<Snapshot>, hooks: Hooks)
    returns (r: Result<Committed, Code>)
    requires k.Valid()
    modifies k
    ensures k.Valid() && Evolves(old(k.world), k.world)
    ensures old(k.Clean()) ==> k.Clean()
    // under any interference, success means the complete file is under the name now
    ensures r.Ok? ==>
              && Intact(k.world, r.value, bytes) && r.value.slot.name == path.finalName
              && r.value.held !in old(k.world).inodes && r.value.held in k.mine
    ensures r.Err? && r.error !in {OutputIdentityUncertain, OutputIntegrityUncertain, DurabilityUncertain} ==>
              Nameless(old(k.mine), k.mine, old(k.world), k.world)
    // alone, every state on the way has the name free or leading to the complete, synced file
    ensures hooks.NoHooks? ==>
              var s := OutputSlot(k, old(k.world), path);
              && (s.None? ==> k.log == old(k.log))
              && (s.Some? ==> forall n :: |old(k.log)| <= n < |k.log| ==>
                                            FreeOrComplete(old(k.world), k.log[n], s.value, bytes))
    ensures hooks.NoHooks? && !k.mayFail ==>
              var s := OutputSlot(k, old(k.world), path);
              (r.Ok? <==> s.Some? && s.value !in old(k.world).names)
  {
    ghost var w0 := k.world;
    EvolvesRefl(w0);
    var uid := k.world.euid;
    var prepared := PrepareWithHooks(k, path, inputs, uid, hooks);
    if prepared.Err? {
      return Err(prepared.error);
    }
    ghost var w1 := k.world;
    var committed := CommitWithHooks(k, prepared.value, bytes, inputs, [], hooks, Guard([], []));
    EvolvesTrans(w0, w1, k.world);
    match committed {
      case Done(c) => r := Ok(c);
      case PreLink(error) => r := Err(error);
      case PostLink(_, error) => r := Err(error);
    }
  }

  ghost predicate FreeOrComplete(w: World, step: Step, s: Slot, bytes: seq<u8>) {
    || Adds(w, step.post)
    || (&& s in step.post.names
        && var i := step.post.names[s];
           && AddsName(w, step.post, s, i)
           && Published(step.post, s, i, w.euid, bytes)
           && OnDisk(step.pre, i, bytes))
  }
}
