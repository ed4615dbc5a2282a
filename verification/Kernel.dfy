/** The system calls of the protocol, on a mutable world. Each call is atomic and may fail without
    effect; other processes run only where a hook is announced. */
module KernelCalls {
  import opened Bytes
  import opened FileWorld

  /** `NoHooks`: nobody else runs at an announced stage. `Hostile`: other processes do, and the stage may be refused. */
  datatype Hooks = NoHooks | Hostile

  datatype Lookup = Found(stat: Metadata) | NoEntry | LookupFailed

  datatype Transfer<T> = Moved(amount: T) | Interrupted | TransferFailed

  datatype NameResult = Named | Occupied | NameFailed

  class Kernel {
    var world: World
    var interrupts: nat          // how many more times a transfer can be interrupted
    const mayFail: bool          // false: no call fails unless the state of the world makes it fail
    ghost var mine: set<Ino>     // the inodes created by the calls made so far
    ghost var log: seq<Step>     // the steps taken by the calls made so far

    const root: Ino
    const cwd: Ino

    ghost predicate Valid()
      reads this
    {
      WellFormed(world) && mine <= world.inodes.Keys && {root, cwd} <= world.inodes.Keys
    }

    ghost predicate Clean()
      reads this
    {
      AllForeignSafe(log)
    }

    method Fault() returns (failed: bool)
      ensures failed ==> mayFail
    {
      failed := *;
      failed := failed && mayFail;
    }

    /** A moment at which other processes may run. `since` is any earlier world, for the caller's bookkeeping. */
    method Announce(hooks: Hooks, ghost since: World)
      requires Valid() && Evolves(since, world)
      modifies this`world
      ensures Valid() && Evolves(old(world), world) && Evolves(since, world)
      ensures hooks.NoHooks? ==> world == old(world)
    {
      EvolvesRefl(world);
      if hooks.Hostile? {
        var next: World := *;
        if Evolves(world, next) {
          EvolvesTrans(since, world, next);
          world := next;
        }
      }
    }

    /** An announced stage that a hook may also refuse. */
    method Attempt(hooks: Hooks, ghost since: World) returns (ok: bool)
      requires Valid() && Evolves(since, world)
      modifies this`world
      ensures Valid() && Evolves(old(world), world) && Evolves(since, world)
      ensures hooks.NoHooks? ==> ok && world == old(world)
    {
      Announce(hooks, since);
      ok := *;
      ok := ok || hooks.NoHooks?;
    }

    // ---- observations

    method FStat(i: Ino) returns (r: Option<Metadata>)
      requires i in world.inodes
      ensures r.Some? ==> r.value == Stat(world, i)
      ensures r.None? ==> mayFail
    {
      var failed := Fault();
      r := if failed then None else Some(Stat(world, i));
    }

    method StatAt(s: Slot) returns (r: Lookup)
      requires Valid()
      ensures r.Found? ==> s in world.names && r.stat == Stat(world, world.names[s])
      ensures r.NoEntry? ==> s !in world.names
      ensures r.LookupFailed? ==> mayFail
    {
      var failed := Fault();
      if failed {
        r := LookupFailed;
      } else if s in world.names {
        r := Found(Stat(world, world.names[s]));
      } else {
        r := NoEntry;
      }
    }

    /** `openat` with O_DIRECTORY and O_NOFOLLOW. */
    method OpenDirectory(s: Slot) returns (r: Option<Ino>)
      requires Valid()
      ensures r.Some? ==> s in world.names && r.value == world.names[s] && world.inodes[r.value].kind == Directory
      ensures r.None? ==> mayFail || s !in world.names || world.inodes[world.names[s]].kind != Directory
    {
      var failed := Fault();
      if failed || s !in world.names || world.inodes[world.names[s]].kind != Directory {
        r := None;
      } else {
        r := Some(world.names[s]);
      }
    }

    /** The directory at which a path starts. */
    method PinStart(absolute: bool) returns (r: Option<Ino>)
      ensures r.Some? ==> r.value == if absolute then root else cwd
      ensures r.None? ==> mayFail
    {
      var failed := Fault();
      r := if failed then None else Some(if absolute then root else cwd);
    }

    /** A second descriptor for a directory that is already held, as `openat` of "." gives it. */
    method Reopen(dir: Ino) returns (r: Option<Ino>)
      ensures r.Some? ==> r.value == dir
      ensures r.None? ==> mayFail
    {
      var failed := Fault();
      r := if failed then None else Some(dir);
    }

    method ReadNames(dir: Ino) returns (r: Option<set<Name>>)
      ensures r.Some? ==> r.value == set s | s in world.names && s.dir == dir :: s.name
      ensures r.None? ==> mayFail
    {
      var failed := Fault();
      r := if failed then None else Some(set s | s in world.names && s.dir == dir :: s.name);
    }

    /** `pread`: any non-empty part of what is asked for, and nothing only at or after the end. */
    method PRead(i: Ino, offset: nat, most: nat) returns (r: Transfer<seq<u8>>)
      requires i in world.inodes && most > 0
      modifies this`interrupts
      ensures r.Moved? ==>
                && |r.amount| <= most
                && (r.amount == [] <==> |world.inodes[i].data| <= offset)
                && (r.amount != [] ==> offset + |r.amount| <= |world.inodes[i].data|
                                       && r.amount == world.inodes[i].data[offset..offset + |r.amount|])
      ensures r.Interrupted? ==> interrupts < old(interrupts)
      ensures !r.Interrupted? ==> interrupts == old(interrupts)
      ensures r.TransferFailed? ==> mayFail
    {
      var failed := Fault();
      var interrupted: bool := *;
      var data := world.inodes[i].data;
      if failed {
        r := TransferFailed;
      } else if interrupted && interrupts > 0 {
        interrupts := interrupts - 1;
        r := Interrupted;
      } else if |data| <= offset {
        r := Moved([]);
      } else {
        var available := if |data| - offset < most then |data| - offset else most;
        var count: int := *;
        count := if 0 < count < available then count else available;
        r := Moved(data[offset..offset + count]);
      }
    }

    // ---- changes to files

    ghost method Record(op: Op, pre: World, before: set<Ino>)
      modifies this`log
      ensures log == old(log) + [Step(op, pre, world, before)]
      ensures old(Clean()) && ForeignSafe(Step(op, pre, world, before)) ==> Clean()
    {
      log := log + [Step(op, pre, world, before)];
    }

    /** `openat` with O_TMPFILE: a fresh regular file without a name. */
    method OpenTemporary(dir: Ino) returns (r: Result<Ino, bool>)
      requires Valid()
      modifies this
      ensures Valid() && Evolves(old(world), world) && interrupts == old(interrupts)
      ensures old(Clean()) ==> Clean()
      ensures r.Ok? ==>
                && r.value !in old(world).inodes && mine == old(mine) + {r.value}
                && Slots(world, r.value) == {}
                && r.value in world.inodes && world == Create(old(world), r.value, world.inodes[r.value])
                && world.inodes[r.value].kind == Regular && world.inodes[r.value].data == []
                && world.inodes[r.value].uid == world.euid
                && log == old(log) + [Step(MakeFile(r.value), old(world), world, old(mine))]
      ensures r.Err? ==> mayFail && world == old(world) && mine == old(mine) && log == old(log)
    {
      EvolvesRefl(world);
      var failed := Fault();
      if failed {
        var profile: bool := *;
        return Err(profile);
      }
      ghost var pre, before := world, mine;
      FreshInoExists(world.inodes.Keys);
      var i: Ino :| i !in world.inodes.Keys;
      var mode: nat := *;
      var gid: nat := *;
      var node := Inode(Regular, [], mode, world.euid, gid, 0);
      CreateEvolves(world, i, node);
      world := Create(world, i, node);
      mine := mine + {i};
      Record(MakeFile(i), pre, before);
      r := Ok(i);
    }

    /** `write` at the descriptor's offset. */
    method Write(i: Ino, offset: nat, bytes: seq<u8>) returns (r: Transfer<nat>)
      requires Valid() && i in world.inodes && bytes != [] && offset <= |world.inodes[i].data|
      modifies this
      ensures Valid() && Evolves(old(world), world) && mine == old(mine)
      ensures old(Clean()) && i in mine ==> Clean()
      ensures r.Moved? ==>
                && r.amount <= |bytes| && interrupts == old(interrupts)
                && (r.amount == 0 ==> mayFail)
                && var n := old(world).inodes[i];
                   world == Create(old(world), i, Touch(n).(data := Overwrite(n.data, offset, bytes[..r.amount])))
      ensures !r.Moved? ==> world == old(world)
      ensures r.Interrupted? ==> interrupts < old(interrupts)
      ensures r.TransferFailed? ==> mayFail && interrupts == old(interrupts)
      ensures log == old(log) + if r.Moved? then [Step(ChangeFile(i), old(world), world, mine)] else []
    {
      EvolvesRefl(world);
      var failed := Fault();
      var interrupted: bool := *;
      if failed {
        return TransferFailed;
      }
      if interrupted && interrupts > 0 {
        interrupts := interrupts - 1;
        return Interrupted;
      }
      ghost var pre, before := world, mine;
      var count: int := *;
      count := if 0 <= count < |bytes| && (count == 0 ==> mayFail) then count else |bytes|;
      var node := Touch(world.inodes[i]).(data := Overwrite(world.inodes[i].data, offset, bytes[..count]));
      UpdateEvolves(world, i, node);
      world := Create(world, i, node);
      Record(ChangeFile(i), pre, before);
      r := Moved(count);
    }

    method FChmod(i: Ino, mode: nat) returns (ok: bool)
      requires Valid() && i in world.inodes
      modifies this`world, this`log
      ensures Valid() && Evolves(old(world), world)
      ensures old(Clean()) && i in mine ==> Clean()
      ensures ok ==> world == Create(old(world), i, Touch(old(world).inodes[i]).(mode := mode))
      ensures !ok ==> mayFail && world == old(world)
      ensures log == old(log) + if ok then [Step(ChangeFile(i), old(world), world, mine)] else []
    {
      EvolvesRefl(world);
      var failed := Fault();
      if failed {
        return false;
      }
      ghost var pre := world;
      var node := Touch(world.inodes[i]).(mode := mode);
      UpdateEvolves(world, i, node);
      world := Create(world, i, node);
      Record(ChangeFile(i), pre, mine);
      ok := true;
    }

    /** `fsync` of a file: a crash now leaves its present content. */
    method FSync(i: Ino) returns (ok: bool)
      requires Valid() && i in world.inodes
      modifies this`world
      ensures Valid() && Evolves(old(world), world)
      ensures ok ==> world == Sync(old(world), i)
      ensures !ok ==> mayFail && world == old(world)
    {
      EvolvesRefl(world);
      var failed := Fault();
      if failed {
        return false;
      }
      SyncEvolves(world, i);
      world := Sync(world, i);
      ok := true;
    }

    method FSyncDirectory(dir: Ino) returns (ok: bool)
      ensures !ok ==> mayFail
    {
      var failed := Fault();
      ok := !failed;
    }

    // ---- changes to names

    /** `linkat` of a held file; refuses an occupied name. */
    method LinkAt(i: Ino, s: Slot, ghost since: World) returns (r: NameResult)
      requires Valid() && i in world.inodes && world.inodes[i].kind == Regular
      requires Evolves(since, world) && i !in since.inodes
      modifies this`world, this`log
      ensures Valid() && Evolves(since, world)
      ensures old(Clean()) ==> Clean()
      ensures r.Named? ==>
                && s !in old(world).names && world == Bind(old(world), s, i)
                && Slots(world, i) == Slots(old(world), i) + {s}
                && (forall j :: j != i ==> Slots(world, j) == Slots(old(world), j))
                && log == old(log) + [Step(Link(s, i), old(world), world, mine)]
      ensures !r.Named? ==> world == old(world) && log == old(log)
      ensures r.Occupied? ==> s in world.names
      ensures r.NameFailed? ==> mayFail
      ensures !mayFail && s !in old(world).names ==> r.Named?
    {
      var failed := Fault();
      if failed {
        return NameFailed;
      }
      if s in world.names {
        return Occupied;
      }
      ghost var pre := world;
      BindFacts(since, world, s, i);
      world := Bind(world, s, i);
      Record(Link(s, i), pre, mine);
      r := Named;
    }

    /** `renameat` with RENAME_NOREPLACE; refuses an occupied name. */
    method RenameNoReplace(s: Slot, t: Slot) returns (r: NameResult)
      requires Valid()
      modifies this`world, this`log
      ensures Valid() && Evolves(old(world), world)
      ensures old(Clean()) ==> Clean()
      ensures r.Named? ==>
                && s in old(world).names && t !in old(world).names && world == Move(old(world), s, t)
                && var i := old(world).names[s];
                   && Slots(world, i) == Slots(old(world), i) - {s} + {t}
                   && |Slots(world, i)| == |Slots(old(world), i)|
                   && (forall j :: j != i ==> Slots(world, j) == Slots(old(world), j))
                   && log == old(log) + [Step(Rename(s, t), old(world), world, mine)]
      ensures !r.Named? ==> world == old(world) && log == old(log)
      ensures r.Occupied? ==> t in world.names
      ensures !mayFail && s in old(world).names && t !in old(world).names ==> r.Named?
    {
      EvolvesRefl(world);
      var failed := Fault();
      if failed || s !in world.names {
        return NameFailed;
      }
      if t in world.names {
        return Occupied;
      }
      ghost var pre := world;
      MoveFacts(world, s, t);
      world := Move(world, s, t);
      Record(Rename(s, t), pre, mine);
      r := Named;
    }

    /** `unlinkat` without flags: the name goes, whatever it names. */
    method UnlinkAt(s: Slot) returns (ok: bool)
      requires Valid()
      modifies this`world, this`log
      ensures Valid() && Evolves(old(world), world)
      ensures old(Clean()) && (s in old(world).names ==> old(world).names[s] in mine) ==> Clean()
      ensures ok ==>
                && s in old(world).names && world == Unbind(old(world), s)
                && var i := old(world).names[s];
                   && Slots(world, i) == Slots(old(world), i) - {s}
                   && (forall j :: j != i ==> Slots(world, j) == Slots(old(world), j))
                   && log == old(log) + [Step(Unlink(s), old(world), world, mine)]
      ensures !ok ==> world == old(world) && log == old(log)
      ensures !mayFail && s in old(world).names && world.inodes[old(world).names[s]].kind == Regular ==> ok
    {
      EvolvesRefl(world);
      var failed := Fault();
      if failed || s !in world.names || world.inodes[world.names[s]].kind == Directory {
        return false;
      }
      ghost var pre := world;
      UnbindFacts(world, s);
      world := Unbind(world, s);
      Record(Unlink(s), pre, mine);
      ok := true;
    }

    /** `mkdirat`: a fresh directory under an unoccupied name. */
    method MakeDirectory(s: Slot, mode: nat) returns (r: NameResult)
      requires Valid()
      modifies this`world, this`log, this`mine
      ensures Valid() && Evolves(old(world), world)
      ensures old(Clean()) ==> Clean()
      ensures r.Named? ==>
                && s !in old(world).names && s in world.names
                && var d := world.names[s];
                   && d !in old(world).inodes && mine == old(mine) + {d}
                   && d in world.inodes && world == NewDirectory(old(world), s, d, world.inodes[d])
                   && (forall t :: t in old(world).names ==> t.dir != d)
                   && (!mayFail ==> world.inodes[d].mode == mode)
                   && world.inodes[d].uid == world.euid
                   && (forall j :: j != d ==> Slots(world, j) == Slots(old(world), j))
                   && Slots(world, d) == {s} && world.inodes[d].kind == Directory
                   && log == old(log) + [Step(MakeDir(s, d), old(world), world, old(mine))]
      ensures !r.Named? ==> world == old(world) && log == old(log) && mine == old(mine)
      ensures r.Occupied? ==> s in world.names
      ensures r.NameFailed? ==> mayFail
    {
      var failed := Fault();
      EvolvesRefl(world);
      if failed {
        return NameFailed;
      }
      if s in world.names {
        return Occupied;
      }
      ghost var pre, before := world, mine;
      var d := UnusedInode(world);
      var gid: nat := *;
      var masked: int := *;
      var node := Inode(Directory, [], if mayFail && 0 <= masked then masked else mode, world.euid, gid, 0);
      MakeDirectoryFacts(world, s, d, node);
      MakeDirectoryIsSafe(world, s, d, node, mine);
      world := NewDirectory(world, s, d, node);
      mine := mine + {d};
      Record(MakeDir(s, d), pre, before);
      r := Named;
    }

    /** `unlinkat` with AT_REMOVEDIR: only an empty directory goes. */
    method RemoveDirectory(s: Slot) returns (ok: bool)
      requires Valid()
      modifies this`world, this`log
      ensures Valid() && Evolves(old(world), world)
      ensures old(Clean()) && (s in old(world).names ==> old(world).names[s] in mine) ==> Clean()
      ensures ok ==>
                && s in old(world).names && world == Unbind(old(world), s)
                && var i := old(world).names[s];
                   && Slots(world, i) == Slots(old(world), i) - {s}
                   && (forall j :: j != i ==> Slots(world, j) == Slots(old(world), j))
                   && log == old(log) + [Step(RemoveDir(s), old(world), world, mine)]
      ensures !ok ==> world == old(world) && log == old(log)
      ensures !mayFail && s in old(world).names && old(world).inodes[old(world).names[s]].kind == Directory
              ==> (forall t :: t in old(world).names ==> t.dir != old(world).names[s]) ==> ok
    {
      EvolvesRefl(world);
      var failed := Fault();
      if failed || s !in world.names || world.inodes[world.names[s]].kind != Directory
         || exists t :: t in world.names && t.dir == world.names[s] {
        return false;
      }
      ghost var pre := world;
      UnbindFacts(world, s);
      world := Unbind(world, s);
      Record(RemoveDir(s), pre, mine);
      ok := true;
    }

    /** `getrandom` and the hexadecimal name made of it; `None` stands for no entropy or sixteen zero bytes.
        While nothing fails, the name is one that the directory does not have. */
    method RandomName(dir: Ino, prefix: string, suffix: string) returns (r: Option<Name>)
      ensures r.Some? ==> IsRandomName(r.value, prefix, suffix)
      ensures !mayFail ==> r.Some? && Slot(dir, r.value) !in world.names
    {
      var failed := Fault();
      var drawn: string := *;
      var digits := if AllHex(drawn) then drawn else "01";
      if !mayFail && Slot(dir, prefix + digits + suffix) in world.names {
        digits := UnusedDigits(world.names.Keys, prefix, suffix);
      }
      Wrap(prefix, digits, suffix);
      r := if failed then None else Some(prefix + digits + suffix);
    }
  }

  predicate AllHex(digits: string) { forall c :: c in digits ==> '0' <= c <= '9' || 'a' <= c <= 'f' }

  /** The shape of a name made of random bytes; the number of digits is left open. */
  ghost predicate IsRandomName(name: Name, prefix: string, suffix: string) {
    exists digits :: AllHex(digits) && name == prefix + digits + suffix
  }

  lemma Wrap(prefix: string, digits: string, suffix: string)
    requires AllHex(digits)
    ensures IsRandomName(prefix + digits + suffix, prefix, suffix)
  {}

  method UnusedDigits(slots: set<Slot>, prefix: string, suffix: string) returns (digits: string)
    ensures AllHex(digits) && forall s :: s in slots ==> s.name != prefix + digits + suffix
  {
    var length: nat := 0;
    var rest := slots;
    while rest != {}
      invariant rest <= slots && forall s :: s in slots && s !in rest ==> |s.name| < length
      decreases |rest|
    {
      var s :| s in rest;
      if |s.name| >= length { length := |s.name| + 1; }
      rest := rest - {s};
    }
    digits := seq(length, _ => '0');
    assert |prefix + digits + suffix| >= length;
  }

  function Overwrite(content: seq<u8>, offset: nat, bytes: seq<u8>): seq<u8>
    requires offset <= |content|
  {
    content[..offset] + bytes + if offset + |bytes| <= |content| then content[offset + |bytes|..] else []
  }

  function NewDirectory(w: World, s: Slot, d: Ino, node: Inode): World {
    w.(names := w.names[s := d], inodes := w.inodes[d := node])
  }

  method UnusedInode(w: World) returns (d: Ino)
    ensures d !in w.inodes && forall t :: t in w.names ==> t.dir != d
  {
    var used := w.inodes.Keys + set t | t in w.names :: t.dir;
    FreshInoExists(used);
    d :| d !in used;
    assert forall t :: t in w.names ==> t.dir in used;
  }

  lemma MakeDirectoryIsSafe(w: World, s: Slot, d: Ino, node: Inode, mine: set<Ino>)
    requires WellFormed(w) && s !in w.names && d !in w.inodes && node.kind == Directory
    ensures ForeignSafe(Step(MakeDir(s, d), w, NewDirectory(w, s, d, node), mine))
  {
    MakeDirectoryFacts(w, s, d, node);
  }

  lemma MakeDirectoryFacts(w: World, s: Slot, d: Ino, node: Inode)
    requires WellFormed(w) && s !in w.names && d !in w.inodes && node.kind == Directory
    ensures var v := NewDirectory(w, s, d, node); Evolves(w, v) && Slots(v, d) == {s}
    ensures forall j :: j != d ==> Slots(NewDirectory(w, s, d, node), j) == Slots(w, j)
  {}
}
