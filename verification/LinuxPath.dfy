/** The reading side: a bounded snapshot of an input file, and its revalidation. */
module LinuxPath {
  import opened Bytes
  import opened AdapterErrors
  import opened FileWorld
  import opened KernelCalls

  const READ_CHUNK_BYTES := 64 * 1024
  const USIZE_MAX := 0xFFFF_FFFF_FFFF_FFFF

  datatype ParsedPath = ParsedPath(absolute: bool, ancestors: seq<Name>, finalName: Name)

  datatype Snapshot = Snapshot(bytes: seq<u8>, ino: Ino, baseline: Metadata)

  /** The directory that a list of names leads to, following directories only. */
  function Resolve(w: World, dir: Ino, names: seq<Name>): Option<Ino>
    requires WellFormed(w)
    decreases |names|
  {
    if names == [] then Some(dir)
    else
      var s := Slot(dir, names[0]);
      if s in w.names && w.inodes[w.names[s]].kind == Directory then Resolve(w, w.names[s], names[1..]) else None
  }

  predicate Unchanged(w: World, s: Snapshot) {
    s.ino in w.inodes && Stat(w, s.ino) == s.baseline && w.inodes[s.ino].data == s.bytes
  }

  ghost predicate Bound(w: World, dir: Ino, name: Name, i: Ino) {
    Slot(dir, name) in w.names && w.names[Slot(dir, name)] == i
  }

  function InitialTypeError(actual: Kind, expected: Kind): Option<Code> {
    if actual == expected then None
    else if actual == Symlink then Some(InputSymlink)
    else Some(InputType)
  }

  method ReadSnapshot(k: Kernel, path: ParsedPath, cap: nat, hooks: Hooks)
    returns (r: Result<Snapshot, Code>, ghost buffered: nat)
    requires k.Valid() && cap <= USIZE_MAX
    modifies k`world, k`interrupts
    ensures k.Valid() && Evolves(old(k.world), k.world)
    ensures hooks.NoHooks? ==> k.world == old(k.world)
    ensures buffered <= cap + 1
    // whatever other processes do meanwhile, an accepted snapshot is the content that the name has now
    ensures r.Ok? ==> Unchanged(k.world, r.value) && |r.value.bytes| <= cap && r.value.baseline.kind == Regular
    ensures r.Ok? ==> exists d :: Bound(k.world, d, path.finalName, r.value.ino)
    // undisturbed, the outcome is decided by the size alone
    ensures hooks.NoHooks? && !k.mayFail && cap < USIZE_MAX ==>
              var d := Resolve(old(k.world), if path.absolute then k.root else k.cwd, path.ancestors);
              d.Some? && Slot(d.value, path.finalName) in old(k.world).names ==>
                var i := old(k.world).names[Slot(d.value, path.finalName)];
                old(k.world).inodes[i].kind == Regular ==>
                  r == if |old(k.world).inodes[i].data| <= cap
                       then Ok(Snapshot(old(k.world).inodes[i].data, i, Stat(old(k.world), i)))
                       else Err(InputTooLarge)
  {
    buffered := 0;
    EvolvesRefl(k.world);
    var start := k.PinStart(path.absolute);
    if start.None? {
      return Err(InputOpen), buffered;
    }
    var parent := start.value;
    for index := 0 to |path.ancestors|
      invariant k.Valid() && Evolves(old(k.world), k.world) && parent in k.world.inodes
      invariant hooks.NoHooks? ==>
                  && k.world == old(k.world)
                  && Resolve(k.world, start.value, path.ancestors) == Resolve(k.world, parent, path.ancestors[index..])
    {
      var slot := Slot(parent, path.ancestors[index]);
      var observed := k.StatAt(slot);
      if !observed.Found? {
        return Err(InputOpen), buffered;
      }
      var mismatch := InitialTypeError(observed.stat.kind, Directory);
      if mismatch.Some? {
        return Err(mismatch.value), buffered;
      }
      k.Announce(hooks, old(k.world));
      var reached := k.OpenDirectory(slot);
      if reached.None? {
        return Err(InputChanged), buffered;
      }
      var pinned := k.FStat(reached.value);
      if pinned.None? || !SameDirectory(observed.stat, pinned.value) {
        return Err(InputChanged), buffered;
      }
      parent := reached.value;
      assert path.ancestors[index..][1..] == path.ancestors[index + 1..];
    }
    ghost var reached := k.world;
    r, buffered := ReadFinal(k, Slot(parent, path.finalName), cap, hooks);
    EvolvesTrans(old(k.world), reached, k.world);
    if r.Ok? {
      assert Bound(k.world, parent, path.finalName, r.value.ino);
    }
  }

  predicate SameDirectory(observed: Metadata, pinned: Metadata) {
    && pinned.kind == Directory
    && (observed.ino, observed.mode, observed.uid, observed.gid) == (pinned.ino, pinned.mode, pinned.uid, pinned.gid)
  }

  /** The final component: open it, read at most one byte more than the cap, and check it did not change. */
  method ReadFinal(k: Kernel, slot: Slot, cap: nat, hooks: Hooks)
    returns (r: Result<Snapshot, Code>, ghost buffered: nat)
    requires k.Valid() && cap <= USIZE_MAX
    modifies k`world, k`interrupts
    ensures k.Valid() && Evolves(old(k.world), k.world)
    ensures hooks.NoHooks? ==> k.world == old(k.world)
    ensures buffered <= cap + 1
    ensures r.Ok? ==> Unchanged(k.world, r.value) && |r.value.bytes| <= cap && r.value.baseline.kind == Regular
    ensures r.Ok? ==> Bound(k.world, slot.dir, slot.name, r.value.ino)
    ensures hooks.NoHooks? && !k.mayFail && cap < USIZE_MAX && slot in old(k.world).names ==>
              var i := old(k.world).names[slot];
              old(k.world).inodes[i].kind == Regular ==>
                r == if |old(k.world).inodes[i].data| <= cap
                     then Ok(Snapshot(old(k.world).inodes[i].data, i, Stat(old(k.world), i)))
                     else Err(InputTooLarge)
  {
    buffered := 0;
    EvolvesRefl(k.world);
    var observed := k.StatAt(slot);
    if !observed.Found? {
      return Err(InputOpen), buffered;
    }
    var mismatch := InitialTypeError(observed.stat.kind, Regular);
    if mismatch.Some? {
      return Err(mismatch.value), buffered;
    }
    var baseline := observed.stat;
    ghost var first := k.world;
    k.Announce(hooks, old(k.world));
    var gate := k.StatAt(slot);
    if !gate.Found? || gate.stat.kind != Regular || gate.stat != baseline {
      return Err(InputChanged), buffered;
    }
    var i := baseline.ino;
    var named := VerifyHeldAndName(k, slot, baseline);
    if !named {
      return Err(InputChanged), buffered;
    }
    var profile := k.Fault();
    if profile {
      var unmoved := VerifyHeldAndName(k, slot, baseline);
      return Err(if unmoved then UnsupportedInputProfile else InputChanged), buffered;
    }
    if cap + 1 > USIZE_MAX {
      return Err(InputTooLarge), buffered;
    }
    EvolvesRefl(first);
    var read := ReadCapped(k, i, cap + 1, hooks, first);
    EvolvesTrans(old(k.world), first, k.world);
    buffered := |read.bytes|;
    var still := VerifyHeldAndName(k, slot, baseline);
    if read.failed {
      return Err(if still then InputOpen else InputChanged), buffered;
    }
    if !still {
      return Err(InputChanged), buffered;
    }
    SameMetadataSameInode(first, k.world, i);
    var bytes := read.bytes;
    if |bytes| > cap {
      return Err(InputTooLarge), buffered;
    }
    if |bytes| != baseline.size {
      return Err(InputChanged), buffered;
    }
    r := Ok(Snapshot(bytes, i, baseline));
  }

  /** What the capped loop had buffered when it stopped, and whether a read had failed. */
  datatype Capped = Capped(bytes: seq<u8>, failed: bool)

  /** The read loop. What it holds is the content of the world `first`, unless the counter has moved since. */
  method ReadCapped(k: Kernel, i: Ino, limit: nat, hooks: Hooks, ghost first: World) returns (r: Capped)
    requires k.Valid() && Evolves(first, k.world) && i in first.inodes && limit > 0
    modifies k`world, k`interrupts
    ensures k.Valid() && Evolves(first, k.world)
    ensures hooks.NoHooks? ==> k.world == old(k.world)
    ensures |r.bytes| <= limit
    ensures r.failed ==> k.mayFail
    ensures k.world.inodes[i].tick == first.inodes[i].tick ==>
              && r.bytes <= first.inodes[i].data
              && (!r.failed ==> |r.bytes| == limit || r.bytes == first.inodes[i].data)
  {
    var bytes: seq<u8> := [];
    var hookFired := false;
    while |bytes| < limit
      invariant k.Valid() && Evolves(first, k.world) && i in k.world.inodes
      invariant |bytes| <= limit
      invariant hooks.NoHooks? ==> k.world == old(k.world)
      invariant k.world.inodes[i].tick == first.inodes[i].tick ==> bytes <= first.inodes[i].data
    {
      assert Later(first, k.world, i);
      var sliceLength := if limit - |bytes| < READ_CHUNK_BYTES then limit - |bytes| else READ_CHUNK_BYTES;
      var chunk := PReadRetrying(k, i, |bytes|, sliceLength);
      if chunk.None? {
        return Capped(bytes, true);
      }
      if chunk.value == [] {
        break;
      }
      ghost var before := k.world;
      k.Announce(hooks, first);
      assert Later(before, k.world, i);
      bytes := bytes + chunk.value;
      if !hookFired {
        hookFired := true;
        ghost var between := k.world;
        k.Announce(hooks, first);
        assert Later(between, k.world, i);
      }
    }
    r := Capped(bytes, false);
  }

  /** Both the held file and what the name resolves to are still the file first observed. */
  method VerifyHeldAndName(k: Kernel, slot: Slot, baseline: Metadata) returns (ok: bool)
    requires k.Valid() && baseline.ino in k.world.inodes
    ensures ok ==> Stat(k.world, baseline.ino) == baseline && Bound(k.world, slot.dir, slot.name, baseline.ino)
    ensures ok ==> baseline.kind == Regular
    ensures !k.mayFail && baseline.kind == Regular && Stat(k.world, baseline.ino) == baseline ==>
              Bound(k.world, slot.dir, slot.name, baseline.ino) ==> ok
  {
    var held := k.FStat(baseline.ino);
    var named := k.StatAt(slot);
    ok := held.Some? && named.Found? && held.value.kind == Regular && held.value == baseline && named.stat == baseline;
  }

  /** The inner loop around `pread` and `read`: an interrupted call is repeated. */
  method PReadRetrying(k: Kernel, i: Ino, offset: nat, most: nat) returns (r: Option<seq<u8>>)
    requires i in k.world.inodes && most > 0
    modifies k`interrupts
    ensures r.Some? ==>
              && |r.value| <= most
              && (r.value == [] <==> |k.world.inodes[i].data| <= offset)
              && (r.value != [] ==> offset + |r.value| <= |k.world.inodes[i].data|
                                    && r.value == k.world.inodes[i].data[offset..offset + |r.value|])
    ensures r.None? ==> k.mayFail
    ensures k.interrupts <= old(k.interrupts)
  {
    var t := k.PRead(i, offset, most);
    while t.Interrupted?
      invariant k.interrupts <= old(k.interrupts)
      invariant t.TransferFailed? ==> k.mayFail
      invariant t.Moved? ==>
                  && |t.amount| <= most
                  && (t.amount == [] <==> |k.world.inodes[i].data| <= offset)
                  && (t.amount != [] ==> offset + |t.amount| <= |k.world.inodes[i].data|
                                         && t.amount == k.world.inodes[i].data[offset..offset + |t.amount|])
      decreases k.interrupts, t.Interrupted?
    {
      t := k.PRead(i, offset, most);
    }
    r := if t.Moved? then Some(t.amount) else None;
  }

  /** Read exactly `length` bytes from the start, in short pieces. */
  method ReadExactly(k: Kernel, i: Ino, length: nat) returns (r: Option<seq<u8>>)
    requires i in k.world.inodes
    modifies k`interrupts
    ensures r.Some? ==> length <= |k.world.inodes[i].data| && r.value == k.world.inodes[i].data[..length]
    ensures !k.mayFail && length <= |k.world.inodes[i].data| ==> r.Some?
    ensures k.interrupts <= old(k.interrupts)
  {
    var observed: seq<u8> := [];
    while |observed| < length
      invariant |observed| <= length && observed <= k.world.inodes[i].data
      invariant k.interrupts <= old(k.interrupts)
    {
      var remaining := length - |observed|;
      var piece := PReadRetrying(k, i, |observed|,
                                 if remaining < READ_CHUNK_BYTES then remaining else READ_CHUNK_BYTES);
      if piece.None? || piece.value == [] {
        return None;
      }
      observed := observed + piece.value;
    }
    r := Some(observed);
  }

  /** The probe for a byte past the end is not repeated when interrupted; the unchanged file is then refused. */
  method Revalidate(k: Kernel, s: Snapshot) returns (ok: bool, ghost probeInterrupted: bool)
    requires s.ino in k.world.inodes
    modifies k`interrupts
    ensures ok ==> Unchanged(k.world, s)
    ensures !k.mayFail ==> (ok <==> Unchanged(k.world, s) && !probeInterrupted)
    ensures probeInterrupted ==> k.interrupts < old(k.interrupts)
    ensures k.interrupts <= old(k.interrupts)
  {
    probeInterrupted := false;
    var before := k.FStat(s.ino);
    if before.None? || before.value != s.baseline {
      return false, false;
    }
    var observed := ReadExactly(k, s.ino, |s.bytes|);
    if observed.None? {
      return false, false;
    }
    var probe := k.PRead(s.ino, |s.bytes|, 1);
    probeInterrupted := probe.Interrupted?;
    if !probe.Moved? {
      return false, probeInterrupted;
    }
    var after := k.FStat(s.ino);
    ok := probe.amount == [] && observed.value == s.bytes && after.Some? && after.value == s.baseline;
  }

  method RevalidateInputs(k: Kernel, inputs: seq<Snapshot>) returns (ok: bool)
    requires forall s :: s in inputs ==> s.ino in k.world.inodes
    modifies k`interrupts
    ensures ok ==> forall s :: s in inputs ==> Unchanged(k.world, s)
    ensures inputs == [] ==> ok
    ensures !k.mayFail && old(k.interrupts) == 0 && (forall s :: s in inputs ==> Unchanged(k.world, s)) ==> ok
    ensures k.interrupts <= old(k.interrupts)
  {
    for n := 0 to |inputs|
      invariant forall s :: s in inputs[..n] ==> Unchanged(k.world, s)
      invariant k.interrupts <= old(k.interrupts)
    {
      var same, _ := Revalidate(k, inputs[n]);
      if !same {
        return false;
      }
    }
    ok := true;
  }
}
