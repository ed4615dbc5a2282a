/** The part of a POSIX filesystem that the publication protocol can observe, as a value.
    A name is a slot in a directory; the link count of an inode is the number of slots bound to it.
    `tick` stands for mtime and ctime together: every change to an inode or to its names moves it. */
module FileWorld {
  import opened Bytes

  type Ino = nat

  type Name = string

  datatype Kind = Regular | Directory | Symlink

  /** `mode` holds the twelve permission bits. */
  datatype Inode = Inode(kind: Kind, data: seq<u8>, mode: nat, uid: nat, gid: nat, tick: nat)

  datatype Slot = Slot(dir: Ino, name: Name)

  /** `disk` is what a crash would leave of a file: its content at the last successful fsync. */
  datatype World = World(names: map<Slot, Ino>, inodes: map<Ino, Inode>, euid: nat, disk: map<Ino, seq<u8>>)

  /** What `fstat` and `statat` report: the identity, and every field of the stable metadata. */
  datatype Metadata = Metadata(ino: Ino, kind: Kind, mode: nat, uid: nat, gid: nat, nlink: nat, size: nat, tick: nat)

  function Slots(w: World, i: Ino): set<Slot> {
    set s | s in w.names && w.names[s] == i
  }

  function Stat(w: World, i: Ino): Metadata
    requires i in w.inodes
  {
    var n := w.inodes[i];
    Metadata(i, n.kind, n.mode, n.uid, n.gid, |Slots(w, i)|, |n.data|, n.tick)
  }

  predicate WellFormed(w: World) {
    && (forall s :: s in w.names ==> w.names[s] in w.inodes)
    && (forall s, t | s in w.names && t in w.names && w.names[s] == w.names[t] ::
          w.inodes[w.names[s]].kind == Directory ==> s == t)
  }

  /** How one inode may differ in a later world: a change of the inode or of its names moves the
      counter, and an inode without a name never gets one back. */
  predicate Later(w: World, v: World, i: Ino)
    requires i in w.inodes
  {
    && i in v.inodes
    && v.inodes[i].kind == w.inodes[i].kind
    && w.inodes[i].tick <= v.inodes[i].tick
    && (w.inodes[i].tick == v.inodes[i].tick ==> v.inodes[i] == w.inodes[i] && Slots(v, i) == Slots(w, i))
    && (Slots(w, i) == {} ==> Slots(v, i) == {})
  }

  /** What any number of steps by other processes may do. Inode numbers are not reused. */
  predicate Evolves(w: World, v: World) {
    && WellFormed(v)
    && w.inodes.Keys <= v.inodes.Keys
    && forall i {:trigger Later(w, v, i)} :: i in w.inodes ==> Later(w, v, i)
  }

  lemma EvolvesRefl(w: World)
    requires WellFormed(w)
    ensures Evolves(w, w)
  {}

  lemma EvolvesTrans(a: World, b: World, c: World)
    requires Evolves(a, b) && Evolves(b, c)
    ensures Evolves(a, c)
  {
    forall i | i in a.inodes
      ensures Later(a, c, i)
    {
      assert Later(a, b, i);
      assert Later(b, c, i);
    }
  }

  /** The counter is a witness: equal metadata at two moments means equal content and equal names. */
  lemma SameMetadataSameInode(w: World, v: World, i: Ino)
    requires Evolves(w, v) && i in w.inodes && i in v.inodes && Stat(v, i) == Stat(w, i)
    ensures v.inodes[i] == w.inodes[i] && Slots(v, i) == Slots(w, i)
  {
    assert Later(w, v, i);
  }

  lemma OnlySlot(w: World, i: Ino, s: Slot)
    requires |Slots(w, i)| == 1 && s in w.names && w.names[s] == i
    ensures Slots(w, i) == {s}
  {
    assert s in Slots(w, i);
    assert |Slots(w, i) - {s}| == 0;
  }

  // ---- the call's own steps, as functions on worlds

  function Touch(n: Inode): Inode { n.(tick := n.tick + 1) }

  function Create(w: World, i: Ino, n: Inode): World { w.(inodes := w.inodes[i := n]) }

  function Bind(w: World, s: Slot, i: Ino): World
    requires i in w.inodes
  {
    w.(names := w.names[s := i], inodes := w.inodes[i := Touch(w.inodes[i])])
  }

  function Unbind(w: World, s: Slot): World
    requires s in w.names && w.names[s] in w.inodes
  {
    var i := w.names[s];
    w.(names := w.names - {s}, inodes := w.inodes[i := Touch(w.inodes[i])])
  }

  function Move(w: World, s: Slot, t: Slot): World
    requires s in w.names && w.names[s] in w.inodes
  {
    var i := w.names[s];
    w.(names := (w.names - {s})[t := i], inodes := w.inodes[i := Touch(w.inodes[i])])
  }

  lemma CreateEvolves(w: World, i: Ino, n: Inode)
    requires WellFormed(w) && i !in w.inodes
    ensures var v := Create(w, i, n); Evolves(w, v) && Slots(v, i) == {} && forall j :: Slots(v, j) == Slots(w, j)
  {}

  /** A change of content or mode of one inode, with the counter moved. */
  lemma UpdateEvolves(w: World, i: Ino, n: Inode)
    requires WellFormed(w) && i in w.inodes && n.kind == w.inodes[i].kind && n.tick > w.inodes[i].tick
    ensures var v := Create(w, i, n); Evolves(w, v) && forall j :: Slots(v, j) == Slots(w, j)
  {}

  /** What a crash would leave of `i` is exactly the bytes. */
  predicate OnDisk(w: World, i: Ino, bytes: seq<u8>) { i in w.disk && w.disk[i] == bytes }

  /** What was on disk of the inodes of `w` is still there in `v`. */
  ghost predicate DiskKept(w: World, v: World) {
    forall i :: i in w.inodes && i in w.disk ==> i in v.disk && v.disk[i] == w.disk[i]
  }

  function Sync(w: World, i: Ino): World
    requires i in w.inodes
  {
    w.(disk := w.disk[i := w.inodes[i].data])
  }

  lemma SyncEvolves(w: World, i: Ino)
    requires WellFormed(w) && i in w.inodes
    ensures Evolves(w, Sync(w, i)) && forall j :: Slots(Sync(w, i), j) == Slots(w, j)
  {}

  /** Giving a fresh inode its first name: the inodes of an earlier world `base` only evolve. */
  lemma BindFacts(base: World, w: World, s: Slot, i: Ino)
    requires WellFormed(w) && Evolves(base, w) && s !in w.names && i in w.inodes && w.inodes[i].kind == Regular
    requires i !in base.inodes
    ensures var v := Bind(w, s, i); Evolves(base, v) && WellFormed(v) && Slots(v, i) == Slots(w, i) + {s}
    ensures forall j :: j != i ==> Slots(Bind(w, s, i), j) == Slots(w, j)
  {
    var v := Bind(w, s, i);
    forall j | j != i ensures Slots(v, j) == Slots(w, j) {}
    forall j | j in base.inodes
      ensures Later(base, v, j)
    {
      assert Later(base, w, j);
    }
  }

  lemma UnbindFacts(w: World, s: Slot)
    requires WellFormed(w) && s in w.names
    ensures var v := Unbind(w, s); Evolves(w, v) && Slots(v, w.names[s]) == Slots(w, w.names[s]) - {s}
    ensures forall j :: j != w.names[s] ==> Slots(Unbind(w, s), j) == Slots(w, j)
  {}

  lemma MoveFacts(w: World, s: Slot, t: Slot)
    requires WellFormed(w) && s in w.names && t !in w.names
    ensures var v := Move(w, s, t); Evolves(w, v) && Slots(v, w.names[s]) == Slots(w, w.names[s]) - {s} + {t}
    ensures |Slots(Move(w, s, t), w.names[s])| == |Slots(w, w.names[s])|
    ensures forall j :: j != w.names[s] ==> Slots(Move(w, s, t), j) == Slots(w, j)
  {}

  /** There is always an unused inode number. */
  lemma FreshInoExists(used: set<Ino>)
    ensures exists i: Ino :: i !in used
  {
    var top := Above(used);
    assert top !in used;
  }

  lemma Above(used: set<Ino>) returns (top: Ino)
    ensures forall i :: i in used ==> i < top
  {
    top := 0;
    var rest := used;
    while rest != {}
      invariant rest <= used
      invariant forall i :: i in used && i !in rest ==> i < top
      decreases rest
    {
      var i :| i in rest;
      if i >= top { top := i + 1; }
      rest := rest - {i};
    }
  }

  // ---- what the steps of a call may not do

  datatype Op =
    | MakeFile(ino: Ino)
    | ChangeFile(ino: Ino)
    | Link(slot: Slot, ino: Ino)
    | Rename(from: Slot, to: Slot)
    | Unlink(slot: Slot)
    | MakeDir(slot: Slot, ino: Ino)
    | RemoveDir(slot: Slot)

  /** One step of a call; `mine` are the inodes the call had created before the step. */
  datatype Step = Step(op: Op, pre: World, post: World, mine: set<Ino>)

  /** The step rebinds no occupied name, changes no inode it did not create,
      and takes no name away from such an inode without giving it another. */
  ghost predicate ForeignSafe(s: Step) {
    && (forall n :: n in s.pre.names && n in s.post.names ==> s.post.names[n] == s.pre.names[n])
    && (forall i :: i in s.pre.inodes && i !in s.mine ==>
                      && i in s.post.inodes
                      && s.post.inodes[i].(tick := 0) == s.pre.inodes[i].(tick := 0)
                      && |Slots(s.post, i)| >= |Slots(s.pre, i)|)
  }

  ghost predicate AllForeignSafe(log: seq<Step>) {
    forall n :: 0 <= n < |log| ==> ForeignSafe(log[n])
  }

  /** The slot to which an operation gives an inode, if any. */
  function Target(op: Op): Option<Slot> {
    match op
    case Link(slot, _) => Some(slot)
    case Rename(_, to) => Some(to)
    case MakeDir(slot, _) => Some(slot)
    case _ => None
  }

  /** Only the inode `i` differs. */
  ghost predicate OnlyFile(w: World, v: World, i: Ino) {
    i in v.inodes && v == w.(inodes := w.inodes[i := v.inodes[i]])
  }

  /** `after` extends `before` by steps that change nothing but the inode `i` of the world `w`, and name nothing. */
  ghost predicate FileSteps(before: seq<Step>, after: seq<Step>, w: World, i: Ino) {
    && before <= after
    && forall n :: |before| <= n < |after| ==> Target(after[n].op) == None && OnlyFile(w, after[n].post, i)
  }

  lemma FileStepsSnoc(before: seq<Step>, after: seq<Step>, w: World, i: Ino, s: Step)
    requires FileSteps(before, after, w, i) && Target(s.op) == None && OnlyFile(w, s.post, i)
    ensures FileSteps(before, after + [s], w, i)
  {}

  /** `after` extends `before` by steps that name nothing. */
  ghost predicate NamesNothing(before: seq<Step>, after: seq<Step>) {
    && before <= after
    && forall n :: |before| <= n < |after| ==> Target(after[n].op) == None
  }
}
