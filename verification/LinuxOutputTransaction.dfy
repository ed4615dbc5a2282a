/** Several outputs at once: a set that is published whole or taken back, and a sidecar before its public file. */
module LinuxOutputTransaction {
  import opened Bytes
  import opened AdapterErrors
  import opened FileWorld
  import opened KernelCalls
  import opened LinuxPath
  import opened LinuxOutput
  import opened LinuxOutputRollback

  datatype Spec = Spec(path: ParsedPath, bytes: seq<u8>)

  type Outputs = seq<(Committed, seq<u8>)>

  // ---- error ranking

  function CommittedErrorRank(code: Code): nat {
    match code
    case OutputIdentityUncertain => 3
    case OutputIntegrityUncertain => 2
    case DurabilityUncertain => 1
    case _ => 0
  }

  method RankErrors(errors: seq<Option<Code>>) returns (code: Code)
    ensures (forall e :: e in errors ==> e == None) ==> code == OutputPublish
    // otherwise the first of the highest rank
    ensures (exists e :: e in errors && e.Some?) ==>
              exists j :: 0 <= j < |errors| && errors[j] == Some(code)
                          && (forall i :: 0 <= i < |errors| && errors[i].Some? ==>
                                            && CommittedErrorRank(errors[i].value) <= CommittedErrorRank(code)
                                            && (CommittedErrorRank(errors[i].value) == CommittedErrorRank(code) ==>
                                                  j <= i))
  {
    var selected: Option<Code> := None;
    var selectedRank := 0;
    ghost var at := 0;
    for n := 0 to |errors|
      invariant selected == None ==> selectedRank == 0 && forall i :: 0 <= i < n ==> errors[i] == None
      invariant selected.Some? ==>
                  && 0 <= at < n && errors[at] == selected && selectedRank == CommittedErrorRank(selected.value)
                  && forall i :: 0 <= i < n && errors[i].Some? ==>
                                   && CommittedErrorRank(errors[i].value) <= selectedRank
                                   && (i < at ==> CommittedErrorRank(errors[i].value) < selectedRank)
    {
      if errors[n].Some? {
        var rank := CommittedErrorRank(errors[n].value);
        if selected.None? || rank > selectedRank {
          selected, selectedRank, at := errors[n], rank, n;
        }
      }
    }
    assert selected.Some? ==> errors[at] in errors;
    code := if selected.Some? then selected.value else OutputPublish;
  }

  // ---- what a set leaves behind

  ghost function SlotsOf(outputs: Outputs): set<Slot> {
    set p | p in outputs :: p.0.slot
  }

  /** Every inode created since is new, and is one of the outputs or has no name. */
  ghost predicate Accounted(before: set<Ino>, after: set<Ino>, w: World, v: World, outputs: Outputs) {
    && before <= after <= v.inodes.Keys
    && (forall p :: p in outputs ==> p.0.held in after && p.0.held !in w.inodes)
    && (forall j :: j in after && j !in before ==>
                      j !in w.inodes && (Slots(v, j) == {} || exists p :: p in outputs && p.0.held == j))
  }

  /** `v` is `w` with the outputs published. */
  ghost predicate PublishedOver(w: World, v: World, outputs: Outputs) {
    && (forall s :: s in w.names ==> s in v.names && v.names[s] == w.names[s])
    && (forall s :: s in v.names && s !in w.names ==> s in SlotsOf(outputs))
    && (forall p :: p in outputs ==> p.0.slot !in w.names && Published(v, p.0.slot, p.0.held, p.0.uid, p.1))
    && v.euid == w.euid
    && (forall j :: j in w.inodes ==> j in v.inodes && v.inodes[j] == w.inodes[j])
    && DistinctSlots(outputs)
  }

  ghost predicate DistinctSlots(outputs: Outputs) {
    forall i, j :: 0 <= i < j < |outputs| ==> outputs[i].0.slot != outputs[j].0.slot
  }

  lemma PublishedOverAdds(w: World, v: World, u: World, outputs: Outputs)
    requires PublishedOver(w, v, outputs) && Adds(v, u)
    ensures PublishedOver(w, u, outputs)
  {}

  /** One more output leaves the earlier ones as they are. */
  lemma AddsNameKeeps(v: World, u: World, s: Slot, i: Ino, c: Committed, bytes: seq<u8>)
    requires AddsName(v, u, s, i) && Published(v, c.slot, c.held, c.uid, bytes)
    ensures Published(u, c.slot, c.held, c.uid, bytes)
    ensures Intact(v, c, bytes) ==> Intact(u, c, bytes)
  {
    assert Slots(u, c.held) == Slots(v, c.held);
  }

  lemma AddsNameKeepsAll(v: World, u: World, c: Committed, outputs: Outputs)
    requires AddsName(v, u, c.slot, c.held) && AllIntact(v, outputs)
    ensures AllIntact(u, outputs)
  {
    forall q | q in outputs ensures Intact(u, q.0, q.1) {
      AddsNameKeeps(v, u, c.slot, c.held, q.0, q.1);
    }
  }

  lemma PublishedOverSnoc(w: World, v: World, u: World, outputs: Outputs, c: Committed, bytes: seq<u8>)
    requires PublishedOver(w, v, outputs) && AddsName(v, u, c.slot, c.held)
    requires Published(u, c.slot, c.held, c.uid, bytes)
    ensures PublishedOver(w, u, outputs + [(c, bytes)])
  {
    forall p | p in outputs
      ensures Published(u, p.0.slot, p.0.held, p.0.uid, p.1)
    {
      AddsNameKeeps(v, u, c.slot, c.held, p.0, p.1);
    }
    forall s | s in u.names && s !in w.names
      ensures s in SlotsOf(outputs + [(c, bytes)])
    {
      if s == c.slot {
        assert (c, bytes) in outputs + [(c, bytes)];
      } else {
        var p :| p in outputs && p.0.slot == s;
        assert p in outputs + [(c, bytes)];
      }
    }
  }

  // ---- rollback of a set

  method RollbackAfterError(k: Kernel, committed: Outputs, original: Code, hooks: Hooks) returns (code: Code)
    requires k.Valid() && forall p :: p in committed ==> p.0.held in k.mine
    modifies k`world, k`interrupts, k`log
    ensures k.Valid() && Evolves(old(k.world), k.world)
    ensures old(k.Clean()) ==> k.Clean()
    ensures k.interrupts <= old(k.interrupts)
    ensures code == original || code == OutputRollbackUncertain
    ensures code != OutputRollbackUncertain ==> TakenBack(old(k.world), k.world, committed, hooks)
    ensures hooks.NoHooks? && !k.mayFail && AllIntact(old(k.world), committed) && DistinctSlots(committed)
            ==> code == original && TakenBack(old(k.world), k.world, committed, hooks)
  {
    EvolvesRefl(k.world);
    assert committed[..|committed|] == committed;
    ghost var sure := hooks.NoHooks? && !k.mayFail && AllIntact(k.world, committed) && DistinctSlots(committed);
    var rollbackFailed := false;
    var n := |committed|;
    while n > 0
      invariant 0 <= n <= |committed|
      invariant k.Valid() && Evolves(old(k.world), k.world) && (old(k.Clean()) ==> k.Clean())
      invariant k.interrupts <= old(k.interrupts)
      invariant !rollbackFailed ==> TakenBack(old(k.world), k.world, committed[n..], hooks)
      invariant sure ==> !rollbackFailed && AllIntact(k.world, committed[..n])
    {
      n := n - 1;
      rollbackFailed := RollbackNext(k, committed, n, hooks, rollbackFailed, old(k.world));
    }
    assert committed[0..] == committed;
    code := if rollbackFailed then OutputRollbackUncertain else original;
  }

  /** Take back the output at `n`; one failure does not stop the others from being taken back. */
  method RollbackNext(k: Kernel, committed: Outputs, n: nat, hooks: Hooks, failed: bool, ghost w0: World)
    returns (rollbackFailed: bool)
    requires k.Valid() && Evolves(w0, k.world) && n < |committed| && forall p :: p in committed ==> p.0.held in k.mine
    requires !failed ==> TakenBack(w0, k.world, committed[n + 1..], hooks)
    modifies k`world, k`interrupts, k`log
    ensures k.Valid() && Evolves(w0, k.world) && (old(k.Clean()) ==> k.Clean())
    ensures k.interrupts <= old(k.interrupts)
    ensures !rollbackFailed ==> TakenBack(w0, k.world, committed[n..], hooks)
    ensures hooks.NoHooks? && !k.mayFail && !failed && AllIntact(old(k.world), committed[..n + 1])
            && DistinctSlots(committed)
            ==> !rollbackFailed && AllIntact(k.world, committed[..n])
  {
    ghost var before := k.world;
    SplitAt(committed, n);
    assert committed[n] in committed && committed[..n + 1][n] == committed[n];
    var ok := RollbackCommitted(k, committed[n].0, committed[n].1, hooks);
    EvolvesTrans(w0, before, k.world);
    rollbackFailed := failed || !ok;
    if !rollbackFailed {
      TakenBackCons(w0, before, k.world, committed[n], committed[n + 1..], hooks);
      if hooks.NoHooks? && AllIntact(before, committed[..n + 1]) && DistinctSlots(committed) {
        TakesNameKeepsOthers(before, k.world, committed, n);
      }
    }
  }

  lemma SplitAt(outputs: Outputs, n: nat)
    requires n < |outputs|
    ensures outputs[n..] == [outputs[n]] + outputs[n + 1..] && outputs[..n + 1] == outputs[..n] + [outputs[n]]
    ensures SlotsOf(outputs[..n + 1]) == SlotsOf(outputs[..n]) + {outputs[n].0.slot}
  {
    var more := outputs[..n] + [outputs[n]];
    assert outputs[..n + 1] == more;
    assert forall p :: p in more <==> p in outputs[..n] || p == outputs[n];
  }

  /** Taking back the output at `n` leaves the earlier ones as they are. */
  lemma TakesNameKeepsOthers(w: World, v: World, outputs: Outputs, n: nat)
    requires n < |outputs| && DistinctSlots(outputs) && AllIntact(w, outputs[..n + 1])
    requires TakesName(w, v, outputs[n].0.slot, outputs[n].0.held)
    ensures AllIntact(v, outputs[..n])
  {
    assert outputs[..n + 1][n] == outputs[n];
    forall p | p in outputs[..n] ensures Intact(v, p.0, p.1) {
      var j :| 0 <= j < n && outputs[..n][j] == p;
      assert outputs[..n + 1][j] == p;
      TakesNameKeeps(w, v, outputs[n].0.slot, outputs[n].0.held, p.0, p.1);
    }
  }

  lemma TakesNameKeeps(w: World, v: World, s: Slot, i: Ino, c: Committed, bytes: seq<u8>)
    requires TakesName(w, v, s, i) && s in w.names && w.names[s] == i && c.slot != s && Intact(w, c, bytes)
    ensures Intact(v, c, bytes)
  {
    OnlySlot(w, c.held, c.slot);
    assert s !in Slots(w, c.held);
    assert Slots(v, c.held) == Slots(w, c.held);
  }

  /** None of the outputs has a name any more; undisturbed, their names are the only ones gone. */
  ghost predicate TakenBack(w: World, v: World, outputs: Outputs, hooks: Hooks) {
    && (forall p :: p in outputs ==> p.0.held in v.inodes && Slots(v, p.0.held) == {})
    && (hooks.NoHooks? ==> v.names == w.names - SlotsOf(outputs))
  }

  lemma TakenBackCons(w: World, v: World, u: World, first: (Committed, seq<u8>), rest: Outputs, hooks: Hooks)
    requires TakenBack(w, v, rest, hooks) && Evolves(v, u)
    requires first.0.held in u.inodes && Slots(u, first.0.held) == {}
    requires hooks.NoHooks? ==> TakesName(v, u, first.0.slot, first.0.held)
    ensures TakenBack(w, u, [first] + rest, hooks)
  {
    forall p | p in rest
      ensures Slots(u, p.0.held) == {} && p.0.held in u.inodes
    {
      assert Later(v, u, p.0.held);
    }
    assert SlotsOf([first] + rest) == {first.0.slot} + SlotsOf(rest);
  }

  // ---- a set of outputs

  method PrepareAll(k: Kernel, specs: seq<Spec>, inputs: seq<Snapshot>, uid: nat, hooks: Hooks)
    returns (r: Result<seq<Prepared>, Code>)
    requires k.Valid()
    modifies k`world
    ensures k.Valid() && Evolves(old(k.world), k.world)
    ensures hooks.NoHooks? ==> k.world == old(k.world)
    ensures r.Ok? ==> |r.value| == |specs| && forall j :: 0 <= j < |specs| ==> r.value[j].uid == uid
    ensures r.Ok? ==> NamesMatch(specs, r.value)
    ensures hooks.NoHooks? && r.Ok? ==> AllFree(k, k.world, specs) && SlotsFor(k, k.world, specs, r.value)
    ensures hooks.NoHooks? && !k.mayFail && k.world.euid == uid ==> (r.Ok? <==> AllFree(k, k.world, specs))
  {
    EvolvesRefl(k.world);
    var prepared: seq<Prepared> := [];
    for n := 0 to |specs|
      invariant k.Valid() && Evolves(old(k.world), k.world) && |prepared| == n
      invariant hooks.NoHooks? ==> k.world == old(k.world)
      invariant forall j :: 0 <= j < n ==> prepared[j].uid == uid && prepared[j].slot.name == specs[j].path.finalName
      invariant hooks.NoHooks? ==>
                  && SlotsFor(k, k.world, specs[..n], prepared)
                  && forall j :: 0 <= j < n ==> prepared[j].slot !in k.world.names
    {
      ghost var before := k.world;
      var next := PrepareWithHooks(k, specs[n].path, inputs, uid, hooks);
      EvolvesTrans(old(k.world), before, k.world);
      if next.Err? {
        return Err(next.error);
      }
      prepared := prepared + [next.value];
    }
    assert specs[..|specs|] == specs;
    r := Ok(prepared);
  }

  ghost predicate NamesMatch(specs: seq<Spec>, prepared: seq<Prepared>) {
    |specs| == |prepared| && forall j :: 0 <= j < |specs| ==> prepared[j].slot.name == specs[j].path.finalName
  }

  /** Every output's directory exists and its name is free. */
  ghost predicate AllFree(k: Kernel, w: World, specs: seq<Spec>)
    requires WellFormed(w)
  {
    forall j :: 0 <= j < |specs| ==>
                  OutputSlot(k, w, specs[j].path).Some? && OutputSlot(k, w, specs[j].path).value !in w.names
  }

  ghost predicate SlotsFor(k: Kernel, w: World, specs: seq<Spec>, prepared: seq<Prepared>)
    requires WellFormed(w)
  {
    && |prepared| == |specs|
    && forall j :: 0 <= j < |specs| ==> OutputSlot(k, w, specs[j].path) == Some(prepared[j].slot)
  }

  /** No two outputs denote the same slot. */
  ghost predicate NoAlias(prepared: seq<Prepared>) {
    forall i, j :: 0 <= i < j < |prepared| ==> prepared[i].slot != prepared[j].slot
  }

  method RejectCrossOutputAliases(prepared: seq<Prepared>) returns (ok: bool)
    ensures ok <==> NoAlias(prepared)
  {
    for left := 0 to |prepared|
      invariant forall i, j :: 0 <= i < left && i < j < |prepared| ==> prepared[i].slot != prepared[j].slot
    {
      for right := left + 1 to |prepared|
        invariant forall j :: left < j < right ==> prepared[left].slot != prepared[j].slot
      {
        if prepared[left].slot == prepared[right].slot {
          return false;
        }
      }
    }
    ok := true;
  }

  ghost predicate AllIntact(w: World, outputs: Outputs) {
    forall p :: p in outputs ==> Intact(w, p.0, p.1)
  }

  /** What the commit loop has reached, having started in the world `w` with the log `l` and the inodes `m`. */
  ghost predicate Reached(k: Kernel, w: World, m: set<Ino>, l: seq<Step>, outputs: Outputs, hooks: Hooks)
    reads k
  {
    k.Valid() && ReachedAt(k.world, k.mine, k.log, w, m, l, outputs, hooks)
  }

  ghost predicate ReachedAt(v: World, mine: set<Ino>, log: seq<Step>, w: World, m: set<Ino>, l: seq<Step>,
                            outputs: Outputs, hooks: Hooks)
  {
    && Evolves(w, v) && Accounted(m, mine, w, v, outputs) && LinksOf(l, log, outputs)
    && (hooks.NoHooks? ==> PublishedOver(w, v, outputs))
  }

  /** Since then every output was linked under its name, and nothing else was named. */
  ghost predicate LinksOf(before: seq<Step>, after: seq<Step>, outputs: Outputs) {
    && before <= after
    && (forall p :: p in outputs ==> LinkedIn(before, after, p.0.slot, p.0.held))
    && (forall n :: |before| <= n < |after| && Target(after[n].op) != None ==>
                      exists p :: p in outputs && after[n].op == Link(p.0.slot, p.0.held))
  }

  ghost predicate LinkedIn(before: seq<Step>, after: seq<Step>, s: Slot, i: Ino) {
    exists n :: |before| <= n < |after| && after[n].op == Link(s, i)
  }

  lemma LinksOfNext(l0: seq<Step>, l1: seq<Step>, l2: seq<Step>, outputs: Outputs, c: Committed, bytes: seq<u8>,
                    guard: Guard)
    requires LinksOf(l0, l1, outputs) && CommitSteps(l1, l2, c.slot, c.held, guard)
    ensures LinksOf(l0, l2, outputs + [(c, bytes)])
  {
    var more := outputs + [(c, bytes)];
    assert (c, bytes) in more;
    forall p | p in more ensures LinkedIn(l0, l2, p.0.slot, p.0.held) {
      if p in outputs {
        var n :| |l0| <= n < |l1| && l1[n].op == Link(p.0.slot, p.0.held);
        assert l2[n] == l1[n];
      }
    }
    forall n | |l0| <= n < |l2| && Target(l2[n].op) != None
      ensures exists p :: p in more && l2[n].op == Link(p.0.slot, p.0.held)
    {
      if n < |l1| {
        assert l2[n] == l1[n];
        var p :| p in outputs && l1[n].op == Link(p.0.slot, p.0.held);
        assert p in more;
      }
    }
  }

  lemma LinksOfSame(l0: seq<Step>, l1: seq<Step>, l2: seq<Step>, outputs: Outputs)
    requires LinksOf(l0, l1, outputs) && NamesNothing(l1, l2)
    ensures LinksOf(l0, l2, outputs)
  {
    forall p | p in outputs ensures LinkedIn(l0, l2, p.0.slot, p.0.held) {
      var n :| |l0| <= n < |l1| && l1[n].op == Link(p.0.slot, p.0.held);
      assert l2[n] == l1[n];
    }
  }

  /** The outputs are the first of the prepared ones, in order. */
  ghost predicate Matches(outputs: Outputs, prepared: seq<Prepared>, contents: seq<seq<u8>>) {
    && |outputs| <= |prepared| == |contents|
    && forall j :: 0 <= j < |outputs| ==>
                     && outputs[j].0.slot == prepared[j].slot && outputs[j].0.uid == prepared[j].uid
                     && outputs[j].1 == contents[j]
  }

  /** Commit the prepared outputs in order, `guarded` by all the earlier ones or not; stop at the first failure. */
  method CommitAll(k: Kernel, prepared: seq<Prepared>, contents: seq<seq<u8>>, inputs: seq<Snapshot>, guarded: bool,
                   hooks: Hooks)
    returns (committed: Outputs, failure: Option<Code>)
    requires k.Valid() && |prepared| == |contents|
    requires forall s :: s in inputs ==> s.ino in k.world.inodes
    modifies k
    ensures Reached(k, old(k.world), old(k.mine), old(k.log), committed, hooks) && (old(k.Clean()) ==> k.Clean())
    ensures k.interrupts <= old(k.interrupts)
    ensures Matches(committed, prepared, contents) && (failure.None? ==> |committed| == |prepared|)
    ensures failure.None? && prepared != [] ==> AfterLast(k.log, k.world)
    ensures hooks.NoHooks? && (failure.None? || !k.mayFail) ==> AllIntact(k.world, committed)
    ensures hooks.NoHooks? && !k.mayFail && (inputs == [] || old(k.interrupts) == 0)
            ==> Ready(old(k.world), prepared, inputs) ==> failure.None?
  {
    ghost var w0, m0, l0 := k.world, k.mine, k.log;
    EvolvesRefl(w0);
    committed, failure := [], None;
    for n := 0 to |prepared|
      invariant |committed| == n && failure.None?
      invariant Reached(k, w0, m0, l0, committed, hooks) && (old(k.Clean()) ==> k.Clean())
      invariant k.interrupts <= old(k.interrupts)
      invariant Matches(committed, prepared, contents)
      invariant n > 0 ==> AfterLast(k.log, k.world)
      invariant hooks.NoHooks? ==> AllIntact(k.world, committed)
    {
      if Ready(w0, prepared, inputs) && hooks.NoHooks? {
        ReadyNext(w0, k.world, prepared, inputs, committed);
      }
      ghost var prior := committed;
      committed, failure := CommitNext(k, prepared[n], contents[n], inputs, committed, guarded, hooks, w0, m0, l0);
      MatchesNext(prior, committed, prepared, contents);
      if failure.Some? {
        return;
      }
    }
  }

  ghost predicate Continues(prior: Outputs, committed: Outputs, p: Prepared, content: seq<u8>) {
    && |committed| == |prior| + 1 && prior == committed[..|prior|]
    && var (c, bytes) := committed[|prior|]; c.slot == p.slot && c.uid == p.uid && bytes == content
  }

  lemma MatchesNext(prior: Outputs, committed: Outputs, prepared: seq<Prepared>, contents: seq<seq<u8>>)
    requires Matches(prior, prepared, contents) && |prior| < |prepared|
    requires committed == prior || Continues(prior, committed, prepared[|prior|], contents[|prior|])
    ensures Matches(committed, prepared, contents)
  {}

  /** One turn of the loop. */
  method CommitNext(k: Kernel, p: Prepared, content: seq<u8>, inputs: seq<Snapshot>, prior: Outputs, guarded: bool,
                    hooks: Hooks, ghost w0: World, ghost m0: set<Ino>, ghost l0: seq<Step>)
    returns (committed: Outputs, failure: Option<Code>)
    requires Reached(k, w0, m0, l0, prior, hooks)
    requires forall s :: s in inputs ==> s.ino in k.world.inodes
    requires hooks.NoHooks? ==> AllIntact(k.world, prior)
    modifies k
    ensures Reached(k, w0, m0, l0, committed, hooks) && (old(k.Clean()) ==> k.Clean()) && Evolves(old(k.world), k.world)
    ensures k.interrupts <= old(k.interrupts)
    ensures Continues(prior, committed, p, content) || (failure.Some? && committed == prior)
    ensures failure.None? ==> AfterLast(k.log, k.world)
    ensures hooks.NoHooks? && (failure.None? || !k.mayFail) ==> AllIntact(k.world, committed)
    ensures hooks.NoHooks? && !k.mayFail && (inputs == [] || old(k.interrupts) == 0)
            ==> NextReady(old(k.world), p, inputs) ==> failure.None?
  {
    ghost var before, mine, log := k.world, k.mine, k.log;
    var protected := seq(|prior|, j requires 0 <= j < |prior| => prior[j].0);
    var guard := if guarded then Guard(inputs, prior) else Guard([], []);
    var result := CommitWithHooks(k, p, content, inputs, protected, hooks, guard);
    EvolvesTrans(w0, before, k.world);
    if result.PreLink? {
      NothingReached(before, mine, log, k.world, k.mine, k.log, w0, m0, l0, prior, hooks);
      return prior, Some(result.error);
    }
    var c := result.committed;
    OneReached(before, mine, log, k.world, k.mine, k.log, w0, m0, l0, prior, hooks, c, content, guard);
    committed := prior + [(c, content)];
    AppendContinues(prior, c, p, content);
    failure := if result.PostLink? then Some(result.error) else None;
  }

  lemma AppendContinues(prior: Outputs, c: Committed, p: Prepared, content: seq<u8>)
    requires c.slot == p.slot && c.uid == p.uid
    ensures Continues(prior, prior + [(c, content)], p, content)
  {}

  /** A commit that stopped before its link. */
  lemma NothingReached(v: World, m1: set<Ino>, l1: seq<Step>, u: World, m2: set<Ino>, l2: seq<Step>,
                       w: World, m0: set<Ino>, l0: seq<Step>, outputs: Outputs, hooks: Hooks)
    requires ReachedAt(v, m1, l1, w, m0, l0, outputs, hooks) && Evolves(v, u) && Evolves(w, u) && m2 <= u.inodes.Keys
    requires NamesNothing(l1, l2) && Nameless(m1, m2, v, u) && (hooks.NoHooks? ==> Adds(v, u))
    ensures ReachedAt(u, m2, l2, w, m0, l0, outputs, hooks)
    ensures hooks.NoHooks? && AllIntact(v, outputs) ==> AllIntact(u, outputs)
  {
    LinksOfSame(l0, l1, l2, outputs);
    PreLinkAccounted(m0, m1, m2, w, v, u, outputs);
    if hooks.NoHooks? {
      PublishedOverAdds(w, v, u, outputs);
      AddsSlots(v, u);
    }
  }

  /** A commit that linked its inode. */
  lemma OneReached(v: World, m1: set<Ino>, l1: seq<Step>, u: World, m2: set<Ino>, l2: seq<Step>,
                   w: World, m0: set<Ino>, l0: seq<Step>, outputs: Outputs, hooks: Hooks,
                   c: Committed, bytes: seq<u8>, guard: Guard)
    requires ReachedAt(v, m1, l1, w, m0, l0, outputs, hooks) && Evolves(v, u) && Evolves(w, u)
    requires m2 == m1 + {c.held} && c.held !in v.inodes && c.held in u.inodes
    requires CommitSteps(l1, l2, c.slot, c.held, guard)
    requires hooks.NoHooks? ==> AddsName(v, u, c.slot, c.held) && Published(u, c.slot, c.held, c.uid, bytes)
    ensures ReachedAt(u, m2, l2, w, m0, l0, outputs + [(c, bytes)], hooks)
    ensures hooks.NoHooks? && AllIntact(v, outputs) && Intact(u, c, bytes) ==> AllIntact(u, outputs + [(c, bytes)])
  {
    LinksOfNext(l0, l1, l2, outputs, c, bytes, guard);
    LinkedAccounted(m0, m1, m2, w, v, u, outputs, c, bytes);
    if hooks.NoHooks? {
      PublishedOverSnoc(w, v, u, outputs, c, bytes);
      if AllIntact(v, outputs) {
        AddsNameKeepsAll(v, u, c, outputs);
      }
    }
  }

  lemma PreLinkAccounted(m0: set<Ino>, m1: set<Ino>, m2: set<Ino>, w0: World, w1: World, w2: World, outputs: Outputs)
    requires Accounted(m0, m1, w0, w1, outputs) && Evolves(w0, w1) && Evolves(w1, w2) && m2 <= w2.inodes.Keys
    requires Nameless(m1, m2, w1, w2)
    ensures Accounted(m0, m2, w0, w2, outputs)
  {
    forall j | j in m2 && j !in m0
      ensures j !in w0.inodes && (Slots(w2, j) == {} || exists p :: p in outputs && p.0.held == j)
    {
      if j in m1 {
        assert Later(w1, w2, j);
      }
    }
  }

  lemma LinkedAccounted(m0: set<Ino>, m1: set<Ino>, m2: set<Ino>, w0: World, w1: World, w2: World, outputs: Outputs,
                        c: Committed, bytes: seq<u8>)
    requires Accounted(m0, m1, w0, w1, outputs) && Evolves(w0, w1) && Evolves(w1, w2)
    requires m2 == m1 + {c.held} && c.held !in w1.inodes && c.held in w2.inodes
    ensures Accounted(m0, m2, w0, w2, outputs + [(c, bytes)])
  {
    var more := outputs + [(c, bytes)];
    forall j | j in m2 && j !in m0
      ensures j !in w0.inodes && (Slots(w2, j) == {} || exists p :: p in more && p.0.held == j)
    {
      if j == c.held {
        assert (c, bytes) in more;
      } else {
        assert Later(w1, w2, j);
        if p :| p in outputs && p.0.held == j {
          assert p in more;
        }
      }
    }
  }

  /** Every prepared slot is free and distinct, the owner is right and no input has changed. */
  ghost predicate Ready(w: World, prepared: seq<Prepared>, inputs: seq<Snapshot>) {
    && NoAlias(prepared)
    && (forall j :: 0 <= j < |prepared| ==> prepared[j].slot !in w.names && w.euid == prepared[j].uid)
    && (forall s :: s in inputs ==> Unchanged(w, s))
  }

  ghost predicate NextReady(w: World, p: Prepared, inputs: seq<Snapshot>) {
    p.slot !in w.names && w.euid == p.uid && forall s :: s in inputs ==> Unchanged(w, s)
  }

  lemma ReadyNext(w: World, v: World, prepared: seq<Prepared>, inputs: seq<Snapshot>, outputs: Outputs)
    requires Ready(w, prepared, inputs) && |outputs| < |prepared|
    requires forall j :: 0 <= j < |outputs| ==> outputs[j].0.slot == prepared[j].slot
    requires forall p :: p in outputs ==> p.0.held !in w.inodes
    ensures PublishedOver(w, v, outputs) ==> NextReady(v, prepared[|outputs|], inputs)
  {
    if PublishedOver(w, v, outputs) {
      InputsKept(w, v, outputs, inputs);
      forall s | s in v.names
        ensures s != prepared[|outputs|].slot
      {
        if s !in w.names {
          var p :| p in outputs && p.0.slot == s;
          var j :| 0 <= j < |outputs| && outputs[j] == p;
          assert prepared[j].slot == s;
        }
      }
    }
  }

  lemma KeepsOldSlots(w: World, v: World, outputs: Outputs, i: Ino)
    requires PublishedOver(w, v, outputs) && i in w.inodes && forall p :: p in outputs ==> p.0.held != i
    ensures Slots(v, i) == Slots(w, i)
  {}

  /** Publish every output, or take back the ones that were published. */
  method PublishSet(k: Kernel, specs: seq<Spec>, inputs: seq<Snapshot>, late: Option<Code>, hooks: Hooks)
    returns (r: Result<Unit, Code>, ghost outputs: Outputs)
    requires k.Valid() && forall s :: s in inputs ==> s.ino in k.world.inodes
    modifies k
    ensures k.Valid() && Evolves(old(k.world), k.world)
    ensures old(k.Clean()) ==> k.Clean()
    // under any interference and any failing calls
    ensures r.Err? && r.error != OutputRollbackUncertain ==>
              forall i :: i in k.mine && i !in old(k.mine) ==> i !in old(k.world).inodes && Slots(k.world, i) == {}
    ensures r.Ok? ==>
              && specs != [] && OutputsFor(specs, outputs)
              && AllNew(old(k.world), outputs) && LinksOf(old(k.log), k.log, outputs)
              && SeenSinceLast(k.log, k.world, outputs)
              && Intact(k.world, outputs[|specs| - 1].0, outputs[|specs| - 1].1)
    // alone
    ensures hooks.NoHooks? && r.Err? && (r.error != OutputRollbackUncertain || !k.mayFail) ==>
              k.world.names == old(k.world).names
    ensures hooks.NoHooks? && r.Ok? ==> SetPublished(k, old(k.world), k.world, specs, outputs)
    ensures hooks.NoHooks? && !k.mayFail && (inputs == [] || old(k.interrupts) == 0) ==>
              (r.Ok? <==> late == None && Publishable(k, old(k.world), specs, inputs))
              && (late.Some? && Publishable(k, old(k.world), specs, inputs) ==> r == Err(late.value))
  {
    ghost var w0 := k.world;
    var prepared := PrepareSet(k, specs, inputs, hooks);
    if prepared.Err? {
      outputs := [];
      return Err(prepared.error), outputs;
    }
    ghost var w1 := k.world;
    r, outputs := PublishPrepared(k, specs, prepared.value, inputs, late, hooks);
    EvolvesTrans(w0, w1, k.world);
  }

  /** The set, once every output is prepared. */
  method PublishPrepared(k: Kernel, specs: seq<Spec>, prepared: seq<Prepared>, inputs: seq<Snapshot>,
                         late: Option<Code>, hooks: Hooks)
    returns (r: Result<Unit, Code>, ghost outputs: Outputs)
    requires k.Valid() && (forall s :: s in inputs ==> s.ino in k.world.inodes)
    requires specs != [] && NamesMatch(specs, prepared) && NoAlias(prepared)
    requires hooks.NoHooks? ==> AllFree(k, k.world, specs) && SlotsFor(k, k.world, specs, prepared)
    modifies k
    ensures k.Valid() && Evolves(old(k.world), k.world) && (old(k.Clean()) ==> k.Clean())
    ensures r.Err? && r.error != OutputRollbackUncertain ==>
              forall i :: i in k.mine && i !in old(k.mine) ==> i !in old(k.world).inodes && Slots(k.world, i) == {}
    ensures r.Ok? ==>
              && late.None? && OutputsFor(specs, outputs)
              && AllNew(old(k.world), outputs) && LinksOf(old(k.log), k.log, outputs)
              && SeenSinceLast(k.log, k.world, outputs)
              && Intact(k.world, outputs[|specs| - 1].0, outputs[|specs| - 1].1)
    ensures hooks.NoHooks? && r.Err? && (r.error != OutputRollbackUncertain || !k.mayFail) ==>
              k.world.names == old(k.world).names
    ensures hooks.NoHooks? && r.Ok? ==> SetPublished(k, old(k.world), k.world, specs, outputs)
    ensures hooks.NoHooks? && !k.mayFail && (inputs == [] || old(k.interrupts) == 0)
            ==> Ready(old(k.world), prepared, inputs) ==> (if late.None? then r.Ok? else r == Err(late.value))
  {
    ghost var w1 := k.world;
    r, outputs := CommitOrRollBack(k, prepared, ContentsOf(specs), inputs, late, hooks);
    if r.Err? { return; }
    MatchedOutputs(specs, prepared, outputs);
    LastIsIntact(k.world, inputs, outputs, |specs| - 1);
    if hooks.NoHooks? {
      SetIsPublished(k, w1, k.world, specs, prepared, outputs);
    }
  }

  function ContentsOf(specs: seq<Spec>): (contents: seq<seq<u8>>)
    ensures |contents| == |specs|
  {
    seq(|specs|, j requires 0 <= j < |specs| => specs[j].bytes)
  }

  lemma LastIsIntact(w: World, inputs: seq<Snapshot>, outputs: Outputs, last: nat)
    requires GuardLast(w, Guard(inputs, outputs)) && last + 1 == |outputs|
    ensures Intact(w, outputs[last].0, outputs[last].1)
  {}

  /** One output for each specification, with its name and its bytes, and no slot twice. */
  ghost predicate OutputsFor(specs: seq<Spec>, outputs: Outputs) {
    && |outputs| == |specs| && DistinctSlots(outputs)
    && forall j :: 0 <= j < |specs| ==>
                     outputs[j].0.slot.name == specs[j].path.finalName && outputs[j].1 == specs[j].bytes
  }

  lemma MatchedOutputs(specs: seq<Spec>, prepared: seq<Prepared>, outputs: Outputs)
    requires NamesMatch(specs, prepared) && NoAlias(prepared)
    requires Matches(outputs, prepared, ContentsOf(specs)) && |outputs| == |prepared|
    ensures OutputsFor(specs, outputs)
  {}

  /** Each output's name, free in `w`, leads in `v` to a new file with exactly its bytes; nothing else is named. */
  ghost predicate SetPublished(k: Kernel, w: World, v: World, specs: seq<Spec>, outputs: Outputs)
    requires WellFormed(w)
  {
    && |outputs| == |specs| && AllNew(w, outputs) && PublishedOver(w, v, outputs)
    && (forall j :: 0 <= j < |specs| ==>
                      && OutputSlot(k, w, specs[j].path) == Some(outputs[j].0.slot) && outputs[j].1 == specs[j].bytes
                      && Published(v, outputs[j].0.slot, outputs[j].0.held, w.euid, specs[j].bytes))
    && (forall i, j :: 0 <= i < j < |specs| ==> outputs[i].0.held != outputs[j].0.held)
  }

  lemma SetIsPublished(k: Kernel, w: World, v: World, specs: seq<Spec>, prepared: seq<Prepared>, outputs: Outputs)
    requires WellFormed(w) && |outputs| == |specs| && SlotsFor(k, w, specs, prepared)
    requires AllFree(k, w, specs) && NoAlias(prepared)
    requires Matches(outputs, prepared, ContentsOf(specs)) && AllNew(w, outputs) && PublishedOver(w, v, outputs)
    ensures SetPublished(k, w, v, specs, outputs)
  {
    forall j | 0 <= j < |specs|
      ensures Published(v, outputs[j].0.slot, outputs[j].0.held, w.euid, specs[j].bytes)
    {
      assert outputs[j] in outputs;
    }
    forall i, j | 0 <= i < j < |specs|
      ensures outputs[i].0.held != outputs[j].0.held
    {
      assert outputs[i] in outputs && outputs[j] in outputs;
      OnlySlot(v, outputs[i].0.held, outputs[i].0.slot);
      OnlySlot(v, outputs[j].0.held, outputs[j].0.slot);
    }
  }

  /** None of the output files existed in the world `w`. */
  ghost predicate AllNew(w: World, outputs: Outputs) {
    forall p :: p in outputs ==> p.0.held !in w.inodes
  }

  /** The commits, the last look, and the rollback if anything went wrong. */
  method CommitOrRollBack(k: Kernel, prepared: seq<Prepared>, contents: seq<seq<u8>>, inputs: seq<Snapshot>,
                          late: Option<Code>, hooks: Hooks)
    returns (r: Result<Unit, Code>, ghost outputs: Outputs)
    requires k.Valid() && |prepared| == |contents| > 0 && forall s :: s in inputs ==> s.ino in k.world.inodes
    modifies k
    ensures k.Valid() && Evolves(old(k.world), k.world)
    ensures old(k.Clean()) ==> k.Clean()
    ensures r.Err? && r.error != OutputRollbackUncertain ==>
              forall i :: i in k.mine && i !in old(k.mine) ==> i !in old(k.world).inodes && Slots(k.world, i) == {}
    ensures r.Ok? ==>
              && late == None && |outputs| == |prepared| && Matches(outputs, prepared, contents)
              && LinksOf(old(k.log), k.log, outputs)
              && AllNew(old(k.world), outputs) && GuardLast(k.world, Guard(inputs, outputs))
              && SeenSinceLast(k.log, k.world, outputs)
    ensures hooks.NoHooks? && r.Err? && (r.error != OutputRollbackUncertain || !k.mayFail) ==>
              k.world.names == old(k.world).names
    ensures hooks.NoHooks? && r.Ok? ==> PublishedOver(old(k.world), k.world, outputs)
    ensures hooks.NoHooks? && !k.mayFail && (inputs == [] || old(k.interrupts) == 0)
            ==> Ready(old(k.world), prepared, inputs) ==> (if late.None? then r.Ok? else r == Err(late.value))
  {
    ghost var w1, m1, l1 := k.world, k.mine, k.log;
    var committed, failure := CommitAll(k, prepared, contents, inputs, true, hooks);
    outputs := committed;
    if hooks.NoHooks? && Ready(w1, prepared, inputs) {
      InputsKept(w1, k.world, committed, inputs);
    }
    r := Settle(k, committed, failure, inputs, late, hooks, w1, m1, l1);
  }

  /** The last look at what was committed, and the rollback if anything went wrong. */
  method Settle(k: Kernel, committed: Outputs, failure: Option<Code>, inputs: seq<Snapshot>, late: Option<Code>,
                hooks: Hooks, ghost w1: World, ghost m1: set<Ino>, ghost l1: seq<Step>)
    returns (r: Result<Unit, Code>)
    requires Reached(k, w1, m1, l1, committed, hooks) && GuardHeld(k.world, Guard(inputs, committed))
    requires hooks.NoHooks? && !k.mayFail ==> AllIntact(k.world, committed)
    requires failure.None? ==> AfterLast(k.log, k.world)
    modifies k`world, k`interrupts, k`log
    ensures k.Valid() && Evolves(w1, k.world) && (old(k.Clean()) ==> k.Clean())
    ensures r.Err? && r.error != OutputRollbackUncertain ==>
              forall i :: i in k.mine && i !in m1 ==> i !in w1.inodes && Slots(k.world, i) == {}
    ensures r.Ok? ==> failure.None? && late.None? && k.log == old(k.log) && GuardLast(k.world, Guard(inputs, committed))
    ensures r.Ok? ==> SeenSinceLast(k.log, k.world, committed)
    ensures hooks.NoHooks? && r.Err? && (r.error != OutputRollbackUncertain || !k.mayFail) ==> k.world.names == w1.names
    ensures hooks.NoHooks? && r.Ok? ==> k.world == old(k.world)
    ensures hooks.NoHooks? && !k.mayFail && (inputs == [] || old(k.interrupts) == 0) && failure.None?
              && GuardHolds(old(k.world), Guard(inputs, committed))
            ==> (if late.None? then r.Ok? else r == Err(late.value))
  {
    ghost var w2 := k.world;
    EvolvesRefl(w2);
    var problem := failure;
    if failure.None? {
      problem := FinalCheck(k, committed, inputs, late, hooks, w1);
    }
    if problem.None? {
      SeenAfterLast(k.log, w2, k.world, committed);
      return Ok(Unit.Unit);
    }
    var code := TakeBack(k, committed, problem.value, hooks, w1, m1, w2);
    r := Err(code);
  }

  /** The rollback, seen from the start of the set: `w2` is the world in which the commits ended. */
  method TakeBack(k: Kernel, committed: Outputs, original: Code, hooks: Hooks, ghost w1: World, ghost m1: set<Ino>,
                  ghost w2: World)
    returns (code: Code)
    requires k.Valid() && Evolves(w1, w2) && Evolves(w2, k.world) && Accounted(m1, k.mine, w1, w2, committed)
    requires hooks.NoHooks? ==> k.world == w2 && PublishedOver(w1, w2, committed)
    modifies k`world, k`interrupts, k`log
    ensures k.Valid() && Evolves(w1, k.world)
    ensures old(k.Clean()) ==> k.Clean()
    ensures code != OutputRollbackUncertain ==>
              forall i :: i in k.mine && i !in m1 ==> i !in w1.inodes && Slots(k.world, i) == {}
    ensures code != OutputRollbackUncertain && hooks.NoHooks? ==> k.world.names == w1.names
    ensures hooks.NoHooks? && !k.mayFail && AllIntact(w2, committed) ==> code == original && k.world.names == w1.names
  {
    ghost var w3 := k.world;
    EvolvesTrans(w1, w2, w3);
    code := RollbackAfterError(k, committed, original, hooks);
    EvolvesTrans(w1, w3, k.world);
    if code != OutputRollbackUncertain {
      AllTakenBack(m1, k.mine, w1, w2, w3, k.world, committed, hooks);
    }
    if hooks.NoHooks? && TakenBack(w3, k.world, committed, hooks) {
      NamesRestored(w1, w2, k.world, committed, hooks);
    }
  }

  lemma InputsKept(w: World, v: World, outputs: Outputs, inputs: seq<Snapshot>)
    requires PublishedOver(w, v, outputs) && forall p :: p in outputs ==> p.0.held !in w.inodes
    requires forall s :: s in inputs ==> Unchanged(w, s)
    ensures forall s :: s in inputs ==> Unchanged(v, s)
  {
    forall s | s in inputs
      ensures Unchanged(v, s)
    {
      KeepsOldSlots(w, v, outputs, s.ino);
    }
  }

  /** What decides success when nothing interferes and no call fails. */
  ghost predicate Publishable(k: Kernel, w: World, specs: seq<Spec>, inputs: seq<Snapshot>)
    requires WellFormed(w)
  {
    specs != [] && AllFree(k, w, specs) && DistinctOutputs(k, w, specs) && forall s :: s in inputs ==> Unchanged(w, s)
  }

  /** Everything before the first commit. */
  method PrepareSet(k: Kernel, specs: seq<Spec>, inputs: seq<Snapshot>, hooks: Hooks)
    returns (r: Result<seq<Prepared>, Code>)
    requires k.Valid() && forall s :: s in inputs ==> s.ino in k.world.inodes
    modifies k`world, k`interrupts
    ensures k.Valid() && Evolves(old(k.world), k.world) && k.interrupts <= old(k.interrupts)
    ensures hooks.NoHooks? ==> k.world == old(k.world)
    ensures r.Ok? ==> specs != [] && NamesMatch(specs, r.value) && NoAlias(r.value)
    ensures hooks.NoHooks? && r.Ok? ==>
              && Publishable(k, k.world, specs, inputs) && SlotsFor(k, k.world, specs, r.value)
              && Ready(k.world, r.value, inputs)
    ensures hooks.NoHooks? && !k.mayFail && (inputs == [] || old(k.interrupts) == 0) ==>
              (r.Ok? <==> Publishable(k, k.world, specs, inputs))
  {
    EvolvesRefl(k.world);
    if specs == [] {
      return Err(OutputPublish);
    }
    var uid := k.world.euid;
    var prepared := PrepareAll(k, specs, inputs, uid, hooks);
    if prepared.Err? {
      return prepared;
    }
    var distinct := RejectCrossOutputAliases(prepared.value);
    if !distinct {
      return Err(CrossOutputAlias);
    }
    var same := RevalidateInputs(k, inputs);
    if !same {
      return Err(InputChanged);
    }
    r := prepared;
  }

  /** The caller's verifier, the inputs and every output, once more. */
  method FinalCheck(k: Kernel, committed: Outputs, inputs: seq<Snapshot>, late: Option<Code>, hooks: Hooks,
                    ghost since: World)
    returns (failure: Option<Code>)
    requires k.Valid() && Evolves(since, k.world) && GuardHeld(k.world, Guard(inputs, committed))
    modifies k`world, k`interrupts
    ensures k.Valid() && Evolves(since, k.world) && Evolves(old(k.world), k.world) && k.interrupts <= old(k.interrupts)
    ensures hooks.NoHooks? ==> k.world == old(k.world)
    ensures failure.None? ==> late.None? && GuardLast(k.world, Guard(inputs, committed))
    ensures failure.None? ==> AllSeen(old(k.world), k.world, committed)
    ensures late.Some? ==> failure == late
    ensures failure.None? && hooks.NoHooks? ==> AllIntact(k.world, committed)
    ensures hooks.NoHooks? && !k.mayFail && (inputs == [] || old(k.interrupts) == 0)
            ==> late.None? && GuardHolds(k.world, Guard(inputs, committed)) ==> failure.None?
  {
    EvolvesRefl(k.world);
    if late.Some? {
      return late;
    }
    var checked := RunGuard(k, Guard(inputs, committed), hooks, since);
    failure := if checked.Ok? then None else Some(checked.error);
  }

  lemma AllTakenBack(m0: set<Ino>, m: set<Ino>, w1: World, w2: World, w3: World, w4: World, outputs: Outputs,
                     hooks: Hooks)
    requires Accounted(m0, m, w1, w2, outputs) && Evolves(w2, w3) && Evolves(w3, w4)
    requires TakenBack(w3, w4, outputs, hooks)
    ensures forall j :: j in m && j !in m0 ==> j !in w1.inodes && Slots(w4, j) == {}
  {
    forall j | j in m && j !in m0
      ensures j !in w1.inodes && Slots(w4, j) == {}
    {
      assert Later(w2, w3, j);
      assert Later(w3, w4, j);
    }
  }

  lemma NamesRestored(w: World, v: World, u: World, outputs: Outputs, hooks: Hooks)
    requires PublishedOver(w, v, outputs) && TakenBack(v, u, outputs, hooks) && hooks.NoHooks?
    ensures u.names == w.names
  {}

  ghost predicate DistinctOutputs(k: Kernel, w: World, specs: seq<Spec>)
    requires WellFormed(w)
  {
    forall i, j :: 0 <= i < j < |specs| ==> OutputSlot(k, w, specs[i].path) != OutputSlot(k, w, specs[j].path)
  }

  // ---- a sidecar and its public file

  /** Of the steps since, only links under `s` and `p` name anything, and a link under `p` finds under `s` the file that
      was linked there, still complete. */
  ghost predicate SidecarFirst(before: seq<Step>, after: seq<Step>, s: Slot, p: Slot, uid: nat, sidecarBytes: seq<u8>) {
    && before <= after && s != p
    && forall n :: |before| <= n < |after| && Target(after[n].op) != None ==>
                     && after[n].op.Link? && after[n].op.slot in {s, p}
                     && (after[n].op.slot == p ==>
                          SidecarLinked(before, after[..n], after[n].pre, s, uid, sidecarBytes))
  }

  /** Some step since linked a file under `s` that is complete under that name in the world `w`. */
  ghost predicate SidecarLinked(before: seq<Step>, after: seq<Step>, w: World, s: Slot, uid: nat,
                                sidecarBytes: seq<u8>) {
    exists m :: |before| <= m < |after| && after[m].op.Link? && after[m].op.slot == s
                && Published(w, s, after[m].op.ino, uid, sidecarBytes)
  }

  /** Some step since gave the name `s` to an inode. */
  ghost predicate Gives(before: seq<Step>, after: seq<Step>, s: Slot) {
    exists n :: |before| <= n < |after| && Target(after[n].op) == Some(s)
  }

  /** After the step, the public name is free or the complete sidecar is under its own name, and on disk. */
  ghost predicate PublicImpliesSidecar(step: Step, sidecar: Slot, public: Slot, uid: nat, sidecarBytes: seq<u8>) {
    public in step.post.names ==>
      && sidecar in step.post.names
      && Published(step.post, sidecar, step.post.names[sidecar], uid, sidecarBytes)
      && OnDisk(step.post, step.post.names[sidecar], sidecarBytes)
  }

  predicate Uncertain(code: Code) {
    code == OutputIdentityUncertain || code == OutputIntegrityUncertain || code == DurabilityUncertain
  }

  /** Nothing is taken back: a failure leaves the links that were made. */
  method PublishPair(k: Kernel, sidecar: Spec, public: Spec, inputs: seq<Snapshot>, semantic: Option<Code>,
                     hooks: Hooks)
    returns (r: Result<(Committed, Committed), Code>, ghost sidecarSlot: Slot, ghost publicSlot: Slot)
    requires k.Valid()
    modifies k
    ensures k.Valid() && Evolves(old(k.world), k.world)
    ensures old(k.Clean()) ==> k.Clean()
    // under any interference: only the two outputs are named, and the public one only once the sidecar is in place
    ensures sidecarSlot.name == sidecar.path.finalName && publicSlot.name == public.path.finalName
    ensures k.log == old(k.log)
            || SidecarFirst(old(k.log), k.log, sidecarSlot, publicSlot, old(k.world).euid, sidecar.bytes)
    ensures r.Ok? ==>
              && r.value.0.slot == sidecarSlot && r.value.1.slot == publicSlot && r.value.0.held != r.value.1.held
              && Gives(old(k.log), k.log, sidecarSlot) && Gives(old(k.log), k.log, publicSlot)
              && SeenSinceLast(k.log, k.world, [(r.value.0, sidecar.bytes)]) && Intact(k.world, r.value.1, public.bytes)
    ensures r.Err? && Gives(old(k.log), k.log, publicSlot) ==> Uncertain(r.error)
    // alone
    ensures hooks.NoHooks? ==>
              var s, p := OutputSlot(k, old(k.world), sidecar.path), OutputSlot(k, old(k.world), public.path);
              && (r.Ok? ==> s.Some? && p.Some? && s != p && r.value.0.slot == s.value && r.value.1.slot == p.value
                            && Intact(k.world, r.value.0, sidecar.bytes) && Intact(k.world, r.value.1, public.bytes))
              && (s.Some? && p.Some? && p.value !in old(k.world).names ==>
                    forall n :: |old(k.log)| <= n < |k.log| ==>
                                  PublicImpliesSidecar(k.log[n], s.value, p.value, old(k.world).euid, sidecar.bytes))
              && (k.log != old(k.log) ==>
                    s.Some? && p.Some? && s.value !in old(k.world).names && p.value !in old(k.world).names)
              && (!k.mayFail ==> (r.Ok? <==> semantic == None && s.Some? && p.Some? && s != p
                                             && s.value !in old(k.world).names && p.value !in old(k.world).names))
  {
    ghost var w0 := k.world;
    EvolvesRefl(w0);
    sidecarSlot, publicSlot := Slot(k.root, sidecar.path.finalName), Slot(k.root, public.path.finalName);
    if semantic.Some? {
      r := Err(semantic.value);
      return;
    }
    if sidecar.path == public.path {
      r := Err(CrossOutputAlias);
      return;
    }
    var uid := k.world.euid;
    var first := PrepareWithHooks(k, sidecar.path, inputs, uid, hooks);
    if first.Err? {
      r := Err(first.error);
      return;
    }
    ghost var w1 := k.world;
    var second := PrepareWithHooks(k, public.path, inputs, uid, hooks);
    EvolvesTrans(w0, w1, k.world);
    if second.Err? {
      r := Err(second.error);
      return;
    }
    if first.value.slot == second.value.slot {
      r := Err(CrossOutputAlias);
      return;
    }
    ghost var w2 := k.world;
    sidecarSlot, publicSlot := first.value.slot, second.value.slot;
    r := CommitPair(k, first.value, sidecar.bytes, second.value, public.bytes, inputs, hooks);
    EvolvesTrans(w0, w2, k.world);
  }

  /** The sidecar was linked but a check after the link failed: look again and rank what was found. */
  method JudgeSidecar(k: Kernel, c: Committed, sidecarBytes: seq<u8>, original: Code, hooks: Hooks, ghost since: World)
    returns (code: Code)
    requires k.Valid() && Evolves(since, k.world) && c.held in k.world.inodes && Uncertain(original)
    modifies k`world, k`interrupts
    ensures k.Valid() && Evolves(since, k.world) && Uncertain(code)
    ensures hooks.NoHooks? ==> k.world == old(k.world)
  {
    var revalidation := RevalidateCommitted(k, c, sidecarBytes, hooks, since);
    var errors := [Some(original), Problem(revalidation)];
    assert errors[0] in errors;
    code := RankErrors(errors);
  }

  method CommitPair(k: Kernel, first: Prepared, sidecarBytes: seq<u8>, second: Prepared, publicBytes: seq<u8>,
                    inputs: seq<Snapshot>, hooks: Hooks)
    returns (r: Result<(Committed, Committed), Code>)
    requires k.Valid() && first.slot != second.slot && first.uid == second.uid
    modifies k
    ensures k.Valid() && Evolves(old(k.world), k.world)
    ensures old(k.Clean()) ==> k.Clean()
    ensures SidecarFirst(old(k.log), k.log, first.slot, second.slot, first.uid, sidecarBytes)
    ensures r.Ok? ==> Intact(k.world, r.value.1, publicBytes) && r.value.0.held != r.value.1.held
                      && r.value.0.slot == first.slot && r.value.1.slot == second.slot
                      && SeenSinceLast(k.log, k.world, [(r.value.0, sidecarBytes)])
                      && Gives(old(k.log), k.log, first.slot) && Gives(old(k.log), k.log, second.slot)
    ensures r.Err? && Gives(old(k.log), k.log, second.slot) ==> Uncertain(r.error)
    ensures hooks.NoHooks? ==>
              && (r.Ok? ==> Intact(k.world, r.value.0, sidecarBytes))
              && (second.slot !in old(k.world).names ==>
                    forall n :: |old(k.log)| <= n < |k.log| ==>
                                  PublicImpliesSidecar(k.log[n], first.slot, second.slot, first.uid, sidecarBytes))
              && (!k.mayFail && {first.slot, second.slot} !! old(k.world).names.Keys
                  && old(k.world).euid == first.uid ==>
                    r.Ok?)
  {
    ghost var w0, l0 := k.world, k.log;
    var sidecar := CommitWithHooks(k, first, sidecarBytes, inputs, [], hooks, Guard([], []));
    if hooks.NoHooks? && second.slot !in w0.names {
      PublicStaysFree(l0, k.log, w0, sidecar, first, second.slot, sidecarBytes);
    }
    match sidecar {
      case PreLink(error) =>
        r := Err(error);
      case PostLink(c, original) =>
        NoSecondLink(l0, k.log, k.log, c, second.slot, sidecarBytes);
        var code := JudgeSidecar(k, c, sidecarBytes, original, hooks, w0);
        r := Err(code);
      case Done(c) =>
        r := CommitPublic(k, c, sidecarBytes, second, publicBytes, inputs, hooks, l0, w0);
    }
  }

  /** Nobody else running, the sidecar's commit never gives the public name. */
  lemma PublicStaysFree(l0: seq<Step>, l1: seq<Step>, w: World, sidecar: CommitResult, first: Prepared, p: Slot,
                        bytes: seq<u8>)
    requires p !in w.names && p != first.slot
    requires sidecar.PreLink? ==> StepsAdd(l0, l1, w)
    requires sidecar.Linked() ==> QuietSteps(l0, l1, w, first.slot, sidecar.committed.held, first.uid, bytes)
    ensures forall n :: |l0| <= n < |l1| ==> p !in l1[n].post.names
  {}

  /** The public half, once the sidecar is in place. */
  method CommitPublic(k: Kernel, c: Committed, sidecarBytes: seq<u8>, second: Prepared, publicBytes: seq<u8>,
                      inputs: seq<Snapshot>, hooks: Hooks, ghost l0: seq<Step>, ghost w0: World)
    returns (r: Result<(Committed, Committed), Code>)
    requires k.Valid() && Evolves(w0, k.world) && c.slot != second.slot
    requires CommitSteps(l0, k.log, c.slot, c.held, Guard([], [])) && Intact(k.world, c, sidecarBytes)
    requires hooks.NoHooks? ==> OnDisk(k.world, c.held, sidecarBytes)
    modifies k
    ensures k.Valid() && Evolves(w0, k.world) && (old(k.Clean()) ==> k.Clean())
    ensures SidecarFirst(l0, k.log, c.slot, second.slot, c.uid, sidecarBytes) && old(k.log) <= k.log
    ensures r.Ok? ==> Intact(k.world, r.value.1, publicBytes) && r.value.0.held != r.value.1.held
                      && r.value.0 == c && r.value.1.slot == second.slot
                      && SeenSinceLast(k.log, k.world, [(c, sidecarBytes)])
                      && Gives(l0, k.log, c.slot) && Gives(l0, k.log, second.slot)
    ensures r.Err? && Gives(l0, k.log, second.slot) ==> Uncertain(r.error)
    ensures hooks.NoHooks? ==>
              && (r.Ok? ==> Intact(k.world, c, sidecarBytes))
              && (forall n :: |old(k.log)| <= n < |k.log| ==>
                                PublicImpliesSidecar(k.log[n], c.slot, second.slot, c.uid, sidecarBytes))
              && (!k.mayFail && second.slot !in old(k.world).names && old(k.world).euid == second.uid ==> r.Ok?)
  {
    var public := LinkPublic(k, c, sidecarBytes, second, publicBytes, inputs, hooks, l0, w0);
    ghost var w := k.world;
    r := JudgePair(k, c, sidecarBytes, public, publicBytes, hooks, w0);
    if r.Ok? {
      SeenAfterLast(k.log, w, k.world, [(c, sidecarBytes)]);
    }
  }

  /** The commit of the public file, guarded by the sidecar. */
  method LinkPublic(k: Kernel, c: Committed, sidecarBytes: seq<u8>, second: Prepared, publicBytes: seq<u8>,
                    inputs: seq<Snapshot>, hooks: Hooks, ghost l0: seq<Step>, ghost w0: World)
    returns (public: CommitResult)
    requires k.Valid() && Evolves(w0, k.world) && c.slot != second.slot
    requires CommitSteps(l0, k.log, c.slot, c.held, Guard([], [])) && Intact(k.world, c, sidecarBytes)
    requires hooks.NoHooks? ==> OnDisk(k.world, c.held, sidecarBytes)
    modifies k
    ensures k.Valid() && Evolves(w0, k.world) && c.held in k.world.inodes && (old(k.Clean()) ==> k.Clean())
    ensures SidecarFirst(l0, k.log, c.slot, second.slot, c.uid, sidecarBytes) && old(k.log) <= k.log
    ensures public.Linked() <==> Gives(l0, k.log, second.slot)
    ensures public.Linked() ==>
              && public.committed.held in k.world.inodes && public.committed.held != c.held
              && public.committed.slot == second.slot && Gives(l0, k.log, c.slot) && AfterLast(k.log, k.world)
    ensures public.Done? ==> Intact(k.world, public.committed, publicBytes)
    ensures public.PostLink? ==> Uncertain(public.error)
    ensures hooks.NoHooks? ==>
              && Intact(k.world, c, sidecarBytes)
              && (forall n :: |old(k.log)| <= n < |k.log| ==>
                                PublicImpliesSidecar(k.log[n], c.slot, second.slot, c.uid, sidecarBytes))
              && (!k.mayFail && second.slot !in old(k.world).names && old(k.world).euid == second.uid ==> public.Done?)
  {
    ghost var w1, l1 := k.world, k.log;
    var guard := Guard([], [(c, sidecarBytes)]);
    public := CommitWithHooks(k, second, publicBytes, inputs, [c], hooks, guard);
    EvolvesTrans(w0, w1, k.world);
    assert Later(w1, k.world, c.held);
    if public.Linked() {
      SecondLink(l0, l1, k.log, c, second.slot, public.committed.held, sidecarBytes);
    } else {
      NoSecondLink(l0, l1, k.log, c, second.slot, sidecarBytes);
    }
    if hooks.NoHooks? {
      SidecarStays(l1, k.log, w1, k.world, c, sidecarBytes, second.slot, public, publicBytes);
    }
  }

  /** Look at both outputs again and rank what was found. */
  method JudgePair(k: Kernel, c: Committed, sidecarBytes: seq<u8>, public: CommitResult, publicBytes: seq<u8>,
                   hooks: Hooks, ghost since: World)
    returns (r: Result<(Committed, Committed), Code>)
    requires k.Valid() && Evolves(since, k.world) && c.held in k.world.inodes
    requires public.Linked() ==> public.committed.held in k.world.inodes
    requires public.PostLink? ==> Uncertain(public.error)
    modifies k`world, k`interrupts
    ensures k.Valid() && Evolves(since, k.world)
    ensures hooks.NoHooks? ==> k.world == old(k.world)
    ensures r.Ok? ==> public.Done? && r.value == (c, public.committed) && Intact(k.world, public.committed, publicBytes)
    ensures r.Ok? ==> SeenIntact(old(k.world), k.world, c, sidecarBytes) && Evolves(old(k.world), k.world)
    ensures r.Ok? && hooks.NoHooks? ==> Intact(k.world, c, sidecarBytes)
    ensures r.Err? && public.Linked() ==> Uncertain(r.error)
    ensures hooks.NoHooks? && !k.mayFail && public.Done? && Intact(k.world, c, sidecarBytes)
            ==> Intact(k.world, public.committed, publicBytes) ==> r.Ok?
  {
    ghost var w := k.world;
    var again := RevalidateCommitted(k, c, sidecarBytes, hooks, since);
    ghost var v := k.world;
    match public {
      case PreLink(error) =>
        if error == CrossOutputAlias || again.Ok? {
          r := Err(error);
        } else {
          var code := RankErrors([Some(again.error), Some(error)]);
          r := Err(code);
        }
      case PostLink(p, original) =>
        var publicAgain := RevalidateCommitted(k, p, publicBytes, hooks, since);
        var errors := [Some(original), Problem(again), Problem(publicAgain)];
        assert errors[0] in errors;
        var code := RankErrors(errors);
        r := Err(code);
      case Done(p) =>
        var publicAgain := RevalidateCommitted(k, p, publicBytes, hooks, since);
        if again.Err? || publicAgain.Err? {
          var errors := [Problem(again), Problem(publicAgain)];
          assert errors[0] in errors && errors[1] in errors;
          var code := RankErrors(errors);
          r := Err(code);
        } else {
          SeenBetween(w, v, k.world, c, sidecarBytes);
          r := Ok((c, p));
        }
    }
  }

  /** Nobody else running, the sidecar is complete after every step of the public commit. */
  lemma SidecarStays(l1: seq<Step>, l2: seq<Step>, w1: World, w2: World, c: Committed, bytes: seq<u8>, s: Slot,
                     public: CommitResult, publicBytes: seq<u8>)
    requires Intact(w1, c, bytes) && OnDisk(w1, c.held, bytes)
    requires public.PreLink? ==> Adds(w1, w2) && StepsAdd(l1, l2, w1)
    requires public.Linked() ==>
               && AddsName(w1, w2, s, public.committed.held)
               && QuietSteps(l1, l2, w1, s, public.committed.held, public.committed.uid, publicBytes)
    ensures Intact(w2, c, bytes)
    ensures forall n :: |l1| <= n < |l2| ==> PublicImpliesSidecar(l2[n], c.slot, s, c.uid, bytes)
  {
    if public.PreLink? {
      AddsSlots(w1, w2);
    } else {
      AddsNameKeeps(w1, w2, s, public.committed.held, c, bytes);
    }
    forall n | |l1| <= n < |l2|
      ensures PublicImpliesSidecar(l2[n], c.slot, s, c.uid, bytes)
    {
      if Adds(w1, l2[n].post) {
        AddsSlots(w1, l2[n].post);
      } else {
        AddsNameKeeps(w1, l2[n].post, s, public.committed.held, c, bytes);
      }
    }
  }

  function Problem(r: Result<Unit, Code>): Option<Code> {
    if r.Err? then Some(r.error) else None
  }

  lemma SecondLink(l0: seq<Step>, l1: seq<Step>, l2: seq<Step>, c: Committed, s: Slot, i: Ino, bytes: seq<u8>)
    requires CommitSteps(l0, l1, c.slot, c.held, Guard([], [])) && c.slot != s
    requires CommitSteps(l1, l2, s, i, Guard([], [(c, bytes)]))
    ensures SidecarFirst(l0, l2, c.slot, s, c.uid, bytes) && Gives(l0, l2, c.slot) && Gives(l0, l2, s)
  {
    var m :| |l0| <= m < |l1| && l1[m].op == Link(c.slot, c.held);
    var j :| |l1| <= j < |l2| && l2[j].op == Link(s, i);
    assert l2[m] == l1[m];
    forall n | |l0| <= n < |l2| && Target(l2[n].op) != None
      ensures l2[n].op.Link? && l2[n].op.slot in {c.slot, s}
      ensures l2[n].op.slot == s ==> SidecarLinked(l0, l2[..n], l2[n].pre, c.slot, c.uid, bytes)
    {
      if n < |l1| {
        assert l2[n] == l1[n];
      } else {
        assert l2[..n][m] == l1[m];
      }
    }
  }

  lemma NoSecondLink(l0: seq<Step>, l1: seq<Step>, l2: seq<Step>, c: Committed, s: Slot, bytes: seq<u8>)
    requires CommitSteps(l0, l1, c.slot, c.held, Guard([], [])) && c.slot != s && NamesNothing(l1, l2)
    ensures SidecarFirst(l0, l2, c.slot, s, c.uid, bytes) && !Gives(l0, l2, s)
  {
    forall n | |l0| <= n < |l2| && Target(l2[n].op) != None ensures l2[n].op == Link(c.slot, c.held) {
      assert n < |l1| && l2[n] == l1[n];
    }
  }

  // ---- the members of a staged directory

  type Members = seq<(Name, seq<u8>)>

  /** The outputs are the first members, in order, in the directory `dir`. */
  ghost predicate MembersOf(outputs: Outputs, dir: Ino, members: Members) {
    && |outputs| <= |members|
    && forall j :: 0 <= j < |outputs| ==> outputs[j].0.slot == Slot(dir, members[j].0) && outputs[j].1 == members[j].1
  }

  /** Every member, and nothing else, has been added to the world `w`. */
  ghost predicate MembersPublished(w: World, v: World, dir: Ino, members: Members, outputs: Outputs) {
    && |outputs| == |members| && MembersOf(outputs, dir, members)
    && AllNew(w, outputs) && PublishedOver(w, v, outputs) && AllIntact(v, outputs)
  }

  /** Publish the members in a held directory; on failure the ones published are returned for the caller to clean up. */
  method PublishRelativeSet(k: Kernel, dir: Ino, members: Members, inputs: seq<Snapshot>, late: Option<Code>)
    returns (committed: Outputs, failure: Option<Code>)
    requires k.Valid() && dir in k.world.inodes && forall s :: s in inputs ==> s.ino in k.world.inodes
    modifies k
    ensures Reached(k, old(k.world), old(k.mine), old(k.log), committed, NoHooks) && (old(k.Clean()) ==> k.Clean())
    ensures k.interrupts <= old(k.interrupts)
    ensures MembersOf(committed, dir, members)
    ensures failure.None? ==> late.None? && MembersPublished(old(k.world), k.world, dir, members, committed)
    ensures !k.mayFail ==> AllIntact(k.world, committed)
    ensures !k.mayFail && (inputs == [] || old(k.interrupts) == 0) ==>
              MembersReady(old(k.world), dir, members, inputs) ==> failure == late
  {
    committed, failure := CommitMembers(k, dir, members, inputs);
    if failure.Some? {
      return;
    }
    EvolvesRefl(k.world);
    failure := FinalCheck(k, committed, inputs, late, NoHooks, k.world);
  }

  /** Everything before the last look. */
  method CommitMembers(k: Kernel, dir: Ino, members: Members, inputs: seq<Snapshot>)
    returns (committed: Outputs, failure: Option<Code>)
    requires k.Valid() && dir in k.world.inodes && forall s :: s in inputs ==> s.ino in k.world.inodes
    modifies k
    ensures Reached(k, old(k.world), old(k.mine), old(k.log), committed, NoHooks) && (old(k.Clean()) ==> k.Clean())
    ensures k.interrupts <= old(k.interrupts)
    ensures MembersOf(committed, dir, members)
    ensures failure.None? ==> MembersPublished(old(k.world), k.world, dir, members, committed)
    ensures !k.mayFail ==> AllIntact(k.world, committed)
    ensures !k.mayFail && (inputs == [] || old(k.interrupts) == 0)
            && MembersReady(old(k.world), dir, members, inputs) ==>
              failure.None? && forall s :: s in inputs ==> Unchanged(k.world, s)
  {
    ghost var w0 := k.world;
    EvolvesRefl(w0);
    var prepared := PrepareMembers(k, dir, members, inputs);
    if prepared.Err? {
      return [], Some(prepared.error);
    }
    var same := RevalidateInputs(k, inputs);
    if !same {
      return [], Some(InputChanged);
    }
    committed, failure := CommitAll(k, prepared.value, MemberContents(members), inputs, false, NoHooks);
    if MembersReady(w0, dir, members, inputs) {
      InputsKept(w0, k.world, committed, inputs);
    }
  }

  function MemberContents(members: Members): (contents: seq<seq<u8>>)
    ensures |contents| == |members|
  {
    seq(|members|, j requires 0 <= j < |members| => members[j].1)
  }

  method PrepareMembers(k: Kernel, dir: Ino, members: Members, inputs: seq<Snapshot>)
    returns (r: Result<seq<Prepared>, Code>)
    requires k.Valid() && dir in k.world.inodes
    ensures r.Ok? ==>
              && |r.value| == |members|
              && forall j :: 0 <= j < |members| ==>
                               && r.value[j] == Prepared(Slot(dir, members[j].0), k.world.euid)
                               && r.value[j].slot !in k.world.names
    ensures !k.mayFail && NamesFree(k.world, dir, members) ==> r.Ok?
  {
    var uid := k.world.euid;
    var prepared: seq<Prepared> := [];
    for n := 0 to |members|
      invariant |prepared| == n
      invariant forall j :: 0 <= j < n ==>
                              prepared[j] == Prepared(Slot(dir, members[j].0), uid)
                              && prepared[j].slot !in k.world.names
    {
      var next := PrepareRelative(k, dir, members[n].0, inputs, uid);
      if next.Err? {
        return Err(next.error);
      }
      prepared := prepared + [next.value];
    }
    r := Ok(prepared);
  }

  ghost predicate MembersReady(w: World, dir: Ino, members: Members, inputs: seq<Snapshot>) {
    && DistinctNames(members)
    && NamesFree(w, dir, members)
    && (forall s :: s in inputs ==> Unchanged(w, s))
  }

  ghost predicate NamesFree(w: World, dir: Ino, members: Members) {
    forall j :: 0 <= j < |members| ==> ValidRelativeName(members[j].0) && Slot(dir, members[j].0) !in w.names
  }

  ghost predicate DistinctNames(members: Members) {
    forall i, j :: 0 <= i < j < |members| ==> members[i].0 != members[j].0
  }
}
