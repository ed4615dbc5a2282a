/** The browser reader: a second checker, which reads the full-context baseline from the table. */
module ExecutedCompositionReader {
  import opened Bytes
  import opened ExecutedComposition

  /** What `evaluate` returns; an absent baseline is `None`. */
  datatype Reading = Reading(knowledge: Knowledge, governance: Decision, state: Option<State>, local: Option<Decision>,
                             full: Option<Decision>, first: Option<nat>, witnesses: seq<Option<nat>>)

  function Result(knowledge: Knowledge): Reading {
    Reading(knowledge, Review, None, None, None, None, [])
  }

  /** The reading in the terms of the report: an absent baseline counts as Review. */
  function AsReport(r: Reading): Report {
    Report(r.knowledge, r.governance,
           if r.local.Some? then r.local.value else Review,
           if r.full.Some? then r.full.value else Review,
           r.first,
           Known(r.witnesses),
           if r.state.Some? then Some((Exposes(r.state.value, 0), Exposes(r.state.value, 1))) else None)
  }

  function Known(witnesses: seq<Option<nat>>): seq<nat> {
    if witnesses == [] then []
    else (if witnesses[0].Some? then [witnesses[0].value] else []) + Known(witnesses[1..])
  }

  const MAX_SAFE_INTEGER := 0x1F_FFFF_FFFF_FFFF  // 2 to the 53, less one

  /** What the reader's typed admission asks beyond the type `Run`. */
  predicate Admitted(run: Run) { forall e :: e in run.events ==> e.index <= MAX_SAFE_INTEGER }

  /** An admitted run gets the report it deserves; any other is refused before missing facts are looked for. */
  method Evaluate(run: Run, policy: string) returns (r: Reading)
    ensures if Admitted(run) then Judges(AsReport(r), run, policy) else r == Result(Invalid)
  {
    if !Admitted(run) {
      return Result(Invalid);
    }
    if |run.events| > 256 || |run.id| > 512 {
      return Result(Invalid);
    }
    if run.policy != policy || run.format != FORMAT {
      return Result(Invalid);
    }
    if !run.complete || run.events == [] || run.grants.None? || run.principals.None? || run.publicSink.None?
       || run.vaultSink.None? {
      return Result(Inconclusive);
    }
    var principals, grants := run.principals.value, run.grants.value;
    if principals.0 == "" || principals.1 == "" || principals.0 == principals.1 || |grants| > 32
       || exists g :: g in grants && g.principal != principals.0 && g.principal != principals.1 {
      return Result(Invalid);
    }
    if exists e :: e in run.events && !FactsPresent(e) {
      return Result(Inconclusive);
    }
    r := EvaluateEvents(run, principals, grants);
  }

  method EvaluateEvents(run: Run, principals: (string, string), grants: seq<Grant>) returns (r: Reading)
    requires ExecutedComposition.Complete(run) && run.principals == Some(principals) && run.grants == Some(grants)
    requires principals.0 != principals.1
    ensures if HostProduced(run) then exists qs :: ProducedBy(run, qs) && AsReport(r) == Verdict(HostOf(run), qs)
            else AsReport(r) == Refusal(Invalid)
  {
    ghost var h := HostOf(run);
    ghost var qs: seq<Request> := [];
    var t := START;
    for i := 0 to |run.events|
      invariant |qs| == i && Followed(run, qs, t)
    {
      var next, q := EvaluateEvent(run, principals, grants, i, t, qs);
      if next.None? {
        return Result(Invalid);
      }
      t := next.value;
      qs := qs + [q];
    }
    assert run.events[..|run.events|] == run.events;
    if (t.publicSink, t.vaultSink) != (run.publicSink.value, run.vaultSink.value) {
      WrongSinks(run, qs);
      return Result(Invalid);
    }
    assert ProducedBy(run, qs);
    ConclusionIsVerdict(h, qs, t);
    ReadingAgrees(t);
    r := Concluded(t);
  }

  function Concluded(t: Tracker): Reading {
    Reading(
      if t.first.None? then Safe else Violated,
      if t.first.Some? || !t.permittedAll then Deny else Permit,
      Some(t.state),
      Some(if t.localAll then Permit else Deny),
      Some(if t.fullAll then Permit else Deny),
      t.first,
      if t.first.None? then [] else [t.exposed0, t.exposed1])
  }

  lemma ReadingAgrees(t: Tracker)
    ensures AsReport(Concluded(t)) == Conclude(t)
  {
    assert [t.exposed0, t.exposed1][1..] == [t.exposed1] && [t.exposed1][1..] == [];
    assert Known([t.exposed1]) == if t.exposed1.Some? then [t.exposed1.value] else [];
  }

  /** One event: the baseline is the guarded column of the row. */
  method EvaluateEvent(run: Run, principals: (string, string), grants: seq<Grant>, i: nat, t: Tracker,
                       ghost qs: seq<Request>)
    returns (next: Option<Tracker>, ghost q: Request)
    requires ExecutedComposition.Complete(run) && run.principals == Some(principals) && run.grants == Some(grants)
    requires principals.0 != principals.1 && i < |run.events| && |qs| == i && Followed(run, qs, t)
    ensures next.Some? ==> Followed(run, qs + [q], next.value)
    ensures next.None? ==> !HostProduced(run)
  {
    ghost var h := HostOf(run);
    var event := run.events[i];
    assert event in run.events;
    var principal := event.principal.value;
    var channel, payload, auth := event.channel.value, event.payload.value, event.authenticated.value;
    if (principal != principals.0 && principal != principals.1) || event.index != i {
      NotProduced(run, qs);
      q := Request(0, channel, payload, auth);
      return None, q;
    }
    var actor: Actor := if principal == principals.0 then 0 else 1;
    var request := Request(actor, channel, payload, auth);
    q := request;
    var scoped := Delegated(grants, principal, channel, payload);
    var row := Transition(t.state, actor, payload, channel, auth, scoped);
    var allowed := (if run.guarded then row.guarded else row.local) == 1;
    var bytes := if allowed then Content(actor, payload) else "";
    if event.local != (if row.local != 0 then Permit else Deny) || event.decision != (if allowed then Permit else Deny)
       || event.effect != Some(bytes) {
      NotProduced(run, qs);
      return None, q;
    }
    assert event == HostEvent(h, i, t.state, q);
    var taken := TakeEvent(run, request, row, i, t, qs);
    next := Some(taken);
  }

  /** An event that agrees with the table; the state never differs from the witnesses. */
  method TakeEvent(run: Run, q: Request, row: Row, i: nat, t: Tracker, ghost qs: seq<Request>) returns (u: Tracker)
    requires ExecutedComposition.Complete(run) && i < |run.events| && |qs| == i && Followed(run, qs, t)
    requires row == RowFor(HostOf(run), t.state, q) && run.events[i] == HostEvent(HostOf(run), i, t.state, q)
    ensures Followed(run, qs + [q], u)
  {
    var allowed := (if run.guarded then row.guarded else row.local) == 1;
    FollowedSnoc(run, qs, q, t);
    u := Record(t, i, q, allowed, Content(q.actor, q.payload), row.local == 1, row.guarded == 1,
                if run.guarded then row.guardedNext else row.openNext);
    ExposureAgrees(HostOf(run), qs + [q]);
    if u.state != (if u.exposed0.None? then 0 else 2) + (if u.exposed1.None? then 0 else 1) {
      assert false;
    }
  }

  /** No run of at most 256 events has an index that is not admitted and is yet what a host produced. */
  lemma ProducedIsAdmitted(run: Run)
    requires ExecutedComposition.Complete(run) && |run.events| <= 256 && HostProduced(run)
    ensures Admitted(run)
  {
    var qs :| ProducedBy(run, qs);
    forall e | e in run.events
      ensures e.index <= MAX_SAFE_INTEGER
    {
      var n :| 0 <= n < |run.events| && run.events[n] == e;
      EventAt(HostOf(run), qs, n);
    }
  }

  /** The two checkers agree in every field, except on a run that is not admitted and that the first one finds
      inconclusive before it looks at the events' indices. */
  method CheckBoth(run: Run, policy: string) returns (rust: Report, reader: Reading)
    ensures AsReport(reader) == rust <==> Admitted(run) || Admission(run, policy) != Some(Inconclusive)
    ensures AsReport(reader) != rust ==> rust == Refusal(Inconclusive) && reader == Result(Invalid)
  {
    rust := Check(run, policy);
    reader := Evaluate(run, policy);
    if Admitted(run) {
      JudgementIsUnique(rust, AsReport(reader), run, policy);
    } else if Admission(run, policy).None? && HostProduced(run) {
      ProducedIsAdmitted(run);
    }
  }

  /** A run that the checkers judge differently: it is incomplete, and its one index is 2 to the 53. */
  lemma DisagreementExample(run: Run, policy: string)
    requires run == Run(FORMAT, [], policy, false, false, None, None,
                        [Event(0x20_0000_0000_0000, None, None, None, None, Deny, Deny, None)], None, None)
    ensures !Admitted(run) && Admission(run, policy) == Some(Inconclusive)
  {
    assert run.events[0].index > MAX_SAFE_INTEGER;
  }
}
