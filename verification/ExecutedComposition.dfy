/** The instrumented host and the independent checker of its runs. */
module ExecutedComposition {
  import opened Bytes

  datatype Channel = Public | Vault
  datatype Payload = Fragment | Summary
  datatype Decision = Permit | Deny | Review
  datatype Knowledge = Safe | Violated | Inconclusive | Invalid

  datatype Grant = Grant(principal: string, channel: Channel, payload: Payload, task: string)

  datatype Event = Event(index: nat, principal: Option<string>, channel: Option<Channel>, payload: Option<Payload>,
                         authenticated: Option<bool>, local: Decision, decision: Decision, effect: Option<string>)

  /** `id` is the sequence of UTF-8 bytes, since its bound counts bytes. */
  datatype Run = Run(format: string, id: seq<u8>, policy: string, guarded: bool, complete: bool,
                     principals: Option<(string, string)>, grants: Option<seq<Grant>>, events: seq<Event>,
                     publicSink: Option<seq<string>>, vaultSink: Option<seq<string>>)

  /** The load-bearing part of a report. */
  datatype Report = Report(knowledge: Knowledge, governance: Decision, perCall: Decision, fullContext: Decision,
                           first: Option<nat>, participating: seq<nat>, exposure: Option<(bool, bool)>)

  const FORMAT := "legitimacy.executed-composition.run.v1"
  const TASK := "synthetic-release"

  // ---- the transition table, row by row

  datatype Row = Row(local: nat, guarded: nat, openNext: nat, guardedNext: nat)

  type State = s: nat | s < 4
  type Actor = a: nat | a < 2

  function Exposes(state: State, actor: Actor): bool {
    if actor == 0 then state >= 2 else state % 2 == 1
  }

  function Expose(state: State, actor: Actor): State {
    if Exposes(state, actor) then state else if actor == 0 then state + 2 else state + 1
  }

  function Transition(state: State, actor: Actor, payload: Payload, channel: Channel, authenticated: bool,
                      delegated: bool): Row
  {
    var after := if payload == Fragment && channel == Public then Expose(state, actor) else state;
    var local := authenticated && delegated;
    var guarded := local && after != 3;
    Row(if local then 1 else 0, if guarded then 1 else 0,
        if local then after else state, if guarded then after else state)
  }

  function DecisionOf(value: nat): Decision {
    if value == 1 then Permit else Deny
  }

  function Content(actor: Actor, payload: Payload): string {
    match payload
    case Fragment => if actor == 0 then "SYNTHETIC-ALPHA" else "SYNTHETIC-BETA"
    case Summary => "SUMMARY: one synthetic fragment processed"
  }

  lemma ContentsDiffer()
    ensures Content(0, Fragment) != Content(1, Fragment)
    ensures forall a: Actor, b: Actor :: Content(a, Fragment) != Content(b, Summary)
    ensures forall a: Actor, p :: Content(a, p) != ""
  {}

  predicate Delegated(grants: seq<Grant>, principal: string, channel: Channel, payload: Payload) {
    exists g :: g in grants && g.principal == principal && g.channel == channel
                && g.payload == payload && g.task == TASK
  }

  // ---- the host, as a fold over requests

  datatype Request = Request(actor: Actor, channel: Channel, payload: Payload, authenticated: bool)

  datatype Host = Host(principals: (string, string), grants: seq<Grant>, guarded: bool) {
    function Name(actor: Actor): string { if actor == 0 then principals.0 else principals.1 }
  }

  function RowFor(h: Host, state: State, q: Request): Row {
    Transition(state, q.actor, q.payload, q.channel, q.authenticated,
               Delegated(h.grants, h.Name(q.actor), q.channel, q.payload))
  }

  function Chosen(h: Host, state: State, q: Request): bool {
    var row := RowFor(h, state, q);
    (if h.guarded then row.guarded else row.local) == 1
  }

  function Next(h: Host, state: State, q: Request): (r: State) {
    var row := RowFor(h, state, q);
    if h.guarded then row.guardedNext else row.openNext
  }

  function StateAfter(h: Host, qs: seq<Request>): State {
    if qs == [] then 0 else Next(h, StateAfter(h, qs[..|qs| - 1]), qs[|qs| - 1])
  }

  function HostEvent(h: Host, index: nat, state: State, q: Request): Event {
    Event(index, Some(h.Name(q.actor)), Some(q.channel), Some(q.payload), Some(q.authenticated),
          DecisionOf(RowFor(h, state, q).local), if Chosen(h, state, q) then Permit else Deny,
          Some(if Chosen(h, state, q) then Content(q.actor, q.payload) else ""))
  }

  function HostEvents(h: Host, qs: seq<Request>): (r: seq<Event>)
    ensures |r| == |qs|
  {
    if qs == [] then []
    else
      var init := qs[..|qs| - 1];
      HostEvents(h, init) + [HostEvent(h, |init|, StateAfter(h, init), qs[|qs| - 1])]
  }

  /** What the host wrote to a sink. */
  function HostSink(h: Host, qs: seq<Request>, channel: Channel): seq<string> {
    if qs == [] then []
    else
      var init, q := qs[..|qs| - 1], qs[|qs| - 1];
      HostSink(h, init, channel)
      + if q.channel == channel && Chosen(h, StateAfter(h, init), q) then [Content(q.actor, q.payload)] else []
  }

  predicate Delivers(h: Host, qs: seq<Request>, n: nat)
    requires n < |qs|
  {
    Chosen(h, StateAfter(h, qs[..n]), qs[n])
  }

  /** The request at `n` is delivered and puts the actor's fragment on the public sink. */
  predicate ExposesAt(h: Host, qs: seq<Request>, n: nat, actor: Actor)
    requires n < |qs|
  {
    Delivers(h, qs, n) && qs[n].actor == actor && qs[n].channel == Public && qs[n].payload == Fragment
  }

  function Earliest(h: Host, qs: seq<Request>, actor: Actor): (r: Option<nat>)
    ensures r.Some? ==> r.value < |qs|
  {
    if qs == [] then None
    else
      var before := Earliest(h, qs[..|qs| - 1], actor);
      if before.Some? then before
      else if ExposesAt(h, qs, |qs| - 1, actor) then Some(|qs| - 1)
      else None
  }

  function FirstForbidden(h: Host, qs: seq<Request>): (r: Option<nat>)
    ensures r.Some? ==> r.value < |qs|
  {
    if qs == [] then None
    else
      var before := FirstForbidden(h, qs[..|qs| - 1]);
      if before.Some? then before
      else if StateAfter(h, qs) == 3 then Some(|qs| - 1)
      else None
  }

  // ---- facts about the fold

  lemma PrefixOfPrefix<T>(s: seq<T>, m: nat, n: nat)
    requires m <= n <= |s|
    ensures s[..n][..m] == s[..m]
  {}

  lemma {:induction false} EventAt(h: Host, qs: seq<Request>, n: nat)
    requires n < |qs|
    ensures HostEvents(h, qs)[n] == HostEvent(h, n, StateAfter(h, qs[..n]), qs[n])
  {
    if n < |qs| - 1 {
      EventAt(h, qs[..|qs| - 1], n);
      PrefixOfPrefix(qs, n, |qs| - 1);
    }
  }

  /** The state is the record of which fragments have reached the public sink, and nothing else. */
  lemma {:induction false} StateIsExposure(h: Host, qs: seq<Request>, actor: Actor)
    ensures Exposes(StateAfter(h, qs), actor) <==> Earliest(h, qs, actor).Some?
  {
    if qs != [] {
      var init := qs[..|qs| - 1];
      StateIsExposure(h, init, actor);
      StateIsExposure(h, init, 1 - actor);
    }
  }

  /** ... and the sink itself shows it. */
  lemma {:induction false} StateIsSink(h: Host, qs: seq<Request>, actor: Actor)
    ensures Exposes(StateAfter(h, qs), actor) <==> Content(actor, Fragment) in HostSink(h, qs, Public)
  {
    if qs != [] {
      StateIsSink(h, qs[..|qs| - 1], actor);
      ContentsDiffer();
    }
  }

  lemma {:induction false} EarliestIsFirst(h: Host, qs: seq<Request>, actor: Actor)
    ensures Earliest(h, qs, actor).Some? ==>
              var i := Earliest(h, qs, actor).value;
              ExposesAt(h, qs, i, actor) && forall j :: 0 <= j < i ==> !ExposesAt(h, qs, j, actor)
    ensures Earliest(h, qs, actor).None? ==> forall j :: 0 <= j < |qs| ==> !ExposesAt(h, qs, j, actor)
  {
    if qs != [] {
      var init := qs[..|qs| - 1];
      EarliestIsFirst(h, init, actor);
      forall j | 0 <= j < |init|
        ensures ExposesAt(h, init, j, actor) == ExposesAt(h, qs, j, actor)
      {
        PrefixOfPrefix(qs, j, |init|);
      }
    }
  }

  /** Once both fragments are out they stay out. */
  lemma {:induction false} ExposureStays(h: Host, qs: seq<Request>, n: nat, actor: Actor)
    requires n <= |qs| && Exposes(StateAfter(h, qs[..n]), actor)
    ensures Exposes(StateAfter(h, qs), actor)
  {
    if n < |qs| {
      PrefixOfPrefix(qs, n, |qs| - 1);
      ExposureStays(h, qs[..|qs| - 1], n, actor);
    } else {
      assert qs[..n] == qs;
    }
  }

  lemma NeverRecovers(h: Host, qs: seq<Request>, n: nat)
    requires n <= |qs|
    ensures StateAfter(h, qs[..n]) == 3 ==> StateAfter(h, qs) == 3
  {
    if StateAfter(h, qs[..n]) == 3 {
      ExposureStays(h, qs, n, 0);
      ExposureStays(h, qs, n, 1);
    }
  }

  /** The first forbidden event ends the shortest prefix whose effects are forbidden. */
  lemma {:induction false} FirstEndsShortestPrefix(h: Host, qs: seq<Request>)
    ensures FirstForbidden(h, qs).Some? <==> StateAfter(h, qs) == 3
    ensures FirstForbidden(h, qs).Some? ==>
              var i := FirstForbidden(h, qs).value;
              StateAfter(h, qs[..i + 1]) == 3 && forall j :: 0 <= j <= i ==> StateAfter(h, qs[..j]) != 3
  {
    if qs != [] {
      var init := qs[..|qs| - 1];
      FirstEndsShortestPrefix(h, init);
      if FirstForbidden(h, init).Some? {
        var i := FirstForbidden(h, init).value;
        PrefixOfPrefix(qs, i + 1, |init|);
        forall j | 0 <= j <= i ensures StateAfter(h, qs[..j]) != 3 {
          PrefixOfPrefix(qs, j, |init|);
        }
        NeverRecovers(h, qs, |init|);
      } else if StateAfter(h, qs) == 3 {
        assert qs[..|qs|] == qs;
        forall j | 0 <= j <= |init| ensures StateAfter(h, qs[..j]) != 3 {
          PrefixOfPrefix(qs, j, |init|);
          NeverRecovers(h, init, j);
        }
      }
    }
  }

  /** The violation is complete exactly when the later of the two fragments is delivered. */
  lemma {:induction false} FirstIsLaterWitness(h: Host, qs: seq<Request>)
    requires StateAfter(h, qs) == 3
    ensures Earliest(h, qs, 0).Some? && Earliest(h, qs, 1).Some? && FirstForbidden(h, qs).Some?
    ensures var a, b := Earliest(h, qs, 0).value, Earliest(h, qs, 1).value;
            a != b && FirstForbidden(h, qs).value == if a < b then b else a
  {
    StateIsExposure(h, qs, 0);
    StateIsExposure(h, qs, 1);
    FirstEndsShortestPrefix(h, qs);
    if qs != [] {
      var init := qs[..|qs| - 1];
      StateIsExposure(h, init, 0);
      StateIsExposure(h, init, 1);
      FirstEndsShortestPrefix(h, init);
      if StateAfter(h, init) == 3 {
        FirstIsLaterWitness(h, init);
      }
    }
  }

  // ---- the guard

  function Guarded(h: Host): Host { h.(guarded := true) }

  function Unguarded(h: Host): Host { h.(guarded := false) }

  predicate Subsequence<T(==)>(a: seq<T>, b: seq<T>) {
    if a == [] then true
    else if b == [] then false
    else if a[|a| - 1] == b[|b| - 1] && Subsequence(a[..|a| - 1], b[..|b| - 1]) then true
    else Subsequence(a, b[..|b| - 1])
  }

  lemma SubsequenceSnoc<T>(a: seq<T>, b: seq<T>, x: T)
    requires Subsequence(a, b)
    ensures Subsequence(a, b + [x]) && Subsequence(a + [x], b + [x])
  {}

  /** A guarded run never has both fragments on the public sink. */
  lemma {:induction false} GuardIsSafe(h: Host, qs: seq<Request>)
    requires h.guarded
    ensures StateAfter(h, qs) != 3
    ensures !(Content(0, Fragment) in HostSink(h, qs, Public) && Content(1, Fragment) in HostSink(h, qs, Public))
  {
    if qs != [] {
      GuardIsSafe(h, qs[..|qs| - 1]);
    }
    StateIsSink(h, qs, 0);
    StateIsSink(h, qs, 1);
  }

  /** What the guarded host delivers, the unguarded host delivers too, at the same request and with the same bytes. */
  lemma {:induction false} GuardOnlyWithholds(h: Host, qs: seq<Request>, channel: Channel)
    ensures forall n :: 0 <= n < |qs| && Delivers(Guarded(h), qs, n) ==>
                          && Delivers(Unguarded(h), qs, n)
                          && HostEvents(Guarded(h), qs)[n].effect == HostEvents(Unguarded(h), qs)[n].effect
    ensures Subsequence(HostSink(Guarded(h), qs, channel), HostSink(Unguarded(h), qs, channel))
  {
    forall n | 0 <= n < |qs| && Delivers(Guarded(h), qs, n)
      ensures Delivers(Unguarded(h), qs, n)
      ensures HostEvents(Guarded(h), qs)[n].effect == HostEvents(Unguarded(h), qs)[n].effect
    {
      EventAt(Guarded(h), qs, n);
      EventAt(Unguarded(h), qs, n);
    }
    if qs != [] {
      var init := qs[..|qs| - 1];
      GuardOnlyWithholds(h, init, channel);
      var a, b := HostSink(Guarded(h), init, channel), HostSink(Unguarded(h), init, channel);
      SubsequenceSnoc(a, b, Content(qs[|qs| - 1].actor, qs[|qs| - 1].payload));
      assert a + [] == a && b + [] == b;
    }
  }

  /** If the unguarded run is safe, the guard changes nothing. */
  lemma {:induction false} GuardIsTransparent(h: Host, qs: seq<Request>)
    requires StateAfter(Unguarded(h), qs) != 3
    ensures StateAfter(Guarded(h), qs) == StateAfter(Unguarded(h), qs)
    ensures HostEvents(Guarded(h), qs) == HostEvents(Unguarded(h), qs)
    ensures forall c :: HostSink(Guarded(h), qs, c) == HostSink(Unguarded(h), qs, c)
  {
    if qs != [] {
      var init := qs[..|qs| - 1];
      NeverRecovers(Unguarded(h), qs, |init|);
      GuardIsTransparent(h, init);
    }
  }

  /** Judging each request against everything delivered before it gives the same answer as judging the whole run. */
  lemma {:induction false} WholeRunIsEachRequest(h: Host, qs: seq<Request>)
    ensures AllGuarded(h, qs) <==> StateAfter(h, qs) != 3 && AllDelivered(h, qs)
  {
    if qs != [] {
      var init, q := qs[..|qs| - 1], qs[|qs| - 1];
      assert qs == init + [q];
      WholeRunIsEachRequest(h, init);
      AllSnoc(h, init, q);
      NeverRecovers(h, qs, |init|);
    }
  }

  /** The governance decision and the full-context baseline of a run of the host never differ. */
  lemma GovernanceIsFullContext(h: Host, qs: seq<Request>)
    ensures Verdict(h, qs).governance == Verdict(h, qs).fullContext
  {
    WholeRunIsEachRequest(h, qs);
  }

  // ---- what a run should be judged as

  /** The checks made before any event is interpreted. */
  function Admission(run: Run, policy: string): Option<Knowledge> {
    if run.format != FORMAT || run.policy != policy then Some(Invalid)
    else if |run.events| > 256 || |run.id| > 512 then Some(Invalid)
    else if run.principals.None? || run.grants.None? || run.publicSink.None? || run.vaultSink.None?
      then Some(Inconclusive)
    else if !run.complete || run.events == [] then Some(Inconclusive)
    else if !ValidPrincipals(run.principals.value, run.grants.value) then Some(Invalid)
    else if exists e :: e in run.events && !FactsPresent(e) then Some(Inconclusive)
    else None
  }

  predicate ValidPrincipals(p: (string, string), grants: seq<Grant>) {
    && p.0 != "" && p.1 != "" && p.0 != p.1
    && |grants| <= 32
    && forall g :: g in grants ==> g.principal == p.0 || g.principal == p.1
  }

  predicate FactsPresent(e: Event) {
    e.principal.Some? && e.channel.Some? && e.payload.Some? && e.authenticated.Some? && e.effect.Some?
  }

  predicate Complete(run: Run) {
    && run.principals.Some? && run.grants.Some? && run.publicSink.Some? && run.vaultSink.Some?
    && forall e :: e in run.events ==> FactsPresent(e)
  }

  function HostOf(run: Run): Host
    requires run.principals.Some? && run.grants.Some?
  {
    Host(run.principals.value, run.grants.value, run.guarded)
  }

  /** Some host with the run's principals and grants, asked for some requests, does exactly this. */
  ghost predicate HostProduced(run: Run)
    requires Complete(run)
  {
    exists qs: seq<Request> :: ProducedBy(run, qs)
  }

  ghost predicate ProducedBy(run: Run, qs: seq<Request>)
    requires Complete(run)
  {
    var h := HostOf(run);
    && run.events == HostEvents(h, qs)
    && run.publicSink.value == HostSink(h, qs, Public)
    && run.vaultSink.value == HostSink(h, qs, Vault)
  }

  /** The report on a run of the host, read off the host's requests. */
  function Verdict(h: Host, qs: seq<Request>): Report {
    var violated := StateAfter(h, qs) == 3;
    var a, b := Earliest(h, qs, 0), Earliest(h, qs, 1);
    Report(
      if violated then Violated else Safe,
      if !violated && (forall n :: 0 <= n < |qs| ==> Delivers(h, qs, n)) then Permit else Deny,
      if forall n :: 0 <= n < |qs| ==> RowFor(h, StateAfter(h, qs[..n]), qs[n]).local == 1 then Permit else Deny,
      if forall n :: 0 <= n < |qs| ==> RowFor(h, StateAfter(h, qs[..n]), qs[n]).guarded == 1 then Permit else Deny,
      FirstForbidden(h, qs),
      if violated then (if a.Some? then [a.value] else []) + (if b.Some? then [b.value] else []) else [],
      Some((Exposes(StateAfter(h, qs), 0), Exposes(StateAfter(h, qs), 1))))
  }

  function Refusal(knowledge: Knowledge): Report {
    Report(knowledge, Review, Review, Review, None, [], None)
  }

  /** `r` is the judgement the experiment defines: missing facts stay distinct from denials, and a complete run is
      judged by its effects if the host could have produced it, and is invalid otherwise. */
  ghost predicate Judges(r: Report, run: Run, policy: string) {
    if Admission(run, policy).Some? then r == Refusal(Admission(run, policy).value)
    else
      Complete(run) &&
      if HostProduced(run) then exists qs :: ProducedBy(run, qs) && r == Verdict(HostOf(run), qs)
      else r == Refusal(Invalid)
  }

  /** Complete events determine the requests. */
  lemma {:induction false} RequestsAreUnique(h: Host, qs: seq<Request>, rs: seq<Request>)
    requires h.principals.0 != h.principals.1 && HostEvents(h, qs) == HostEvents(h, rs)
    ensures qs == rs
  {
    forall n | 0 <= n < |qs|
      ensures qs[n] == rs[n]
    {
      EventAt(h, qs, n);
      EventAt(h, rs, n);
    }
  }

  lemma JudgementIsUnique(r: Report, s: Report, run: Run, policy: string)
    requires Judges(r, run, policy) && Judges(s, run, policy)
    ensures r == s
  {
    if Admission(run, policy).None? && HostProduced(run) {
      var qs :| ProducedBy(run, qs) && r == Verdict(HostOf(run), qs);
      var rs :| ProducedBy(run, rs) && s == Verdict(HostOf(run), rs);
      RequestsAreUnique(HostOf(run), qs, rs);
    }
  }

  /** A run is found Violated exactly when both fragment strings are on its public sink; the reported events are the
      earliest deliveries of each fragment, and the later of the two is the first forbidden event. */
  lemma VerdictMeansEffect(r: Report, run: Run, policy: string)
    requires Judges(r, run, policy) && r.knowledge in {Safe, Violated}
    ensures Complete(run) && MeansEffect(r, run)
  {
    var qs :| ProducedBy(run, qs) && r == Verdict(HostOf(run), qs);
    VerdictOfRequests(run, qs);
  }

  predicate MeansEffect(r: Report, run: Run)
    requires run.publicSink.Some?
  {
    && (r.knowledge == Violated <==>
          Content(0, Fragment) in run.publicSink.value && Content(1, Fragment) in run.publicSink.value)
    && (r.knowledge == Violated ==>
          && |r.participating| == 2
          && IsEarliest(run, r.participating[0], 0) && IsEarliest(run, r.participating[1], 1)
          && r.first == Some(if r.participating[0] < r.participating[1] then r.participating[1]
                             else r.participating[0]))
  }

  lemma VerdictOfRequests(run: Run, qs: seq<Request>)
    requires Complete(run) && ProducedBy(run, qs)
    ensures MeansEffect(Verdict(HostOf(run), qs), run)
  {
    var h := HostOf(run);
    ViolatedIsSink(h, qs);
    if StateAfter(h, qs) == 3 {
      ParticipantsOf(h, qs);
      EarliestInRun(run, qs, 0);
      EarliestInRun(run, qs, 1);
    }
  }

  lemma ViolatedIsSink(h: Host, qs: seq<Request>)
    ensures Verdict(h, qs).knowledge == Violated <==> StateAfter(h, qs) == 3
    ensures StateAfter(h, qs) == 3 <==>
              Content(0, Fragment) in HostSink(h, qs, Public) && Content(1, Fragment) in HostSink(h, qs, Public)
  {
    StateIsSink(h, qs, 0);
    StateIsSink(h, qs, 1);
    BothExposed(StateAfter(h, qs));
  }

  lemma BothExposed(state: State)
    ensures state == 3 <==> Exposes(state, 0) && Exposes(state, 1)
  {}

  lemma ParticipantsOf(h: Host, qs: seq<Request>)
    requires StateAfter(h, qs) == 3
    ensures Earliest(h, qs, 0).Some? && Earliest(h, qs, 1).Some?
    ensures var r, a, b := Verdict(h, qs), Earliest(h, qs, 0).value, Earliest(h, qs, 1).value;
            r.participating == [a, b] && r.first == Some(if a < b then b else a)
  {
    FirstIsLaterWitness(h, qs);
  }

  lemma EarliestInRun(run: Run, qs: seq<Request>, actor: Actor)
    requires Complete(run) && ProducedBy(run, qs) && Earliest(HostOf(run), qs, actor).Some?
    ensures IsEarliest(run, Earliest(HostOf(run), qs, actor).value, actor)
  {
    var h := HostOf(run);
    EarliestIsFirst(h, qs, actor);
    forall j | 0 <= j < |qs|
      ensures ExposesAt(h, qs, j, actor) <==> PublicFragmentBy(run, j, actor)
    {
      EventAt(h, qs, j);
      ContentsDiffer();
    }
  }

  /** The event at `n` records a delivery of the actor's fragment to the public channel. */
  predicate PublicFragmentBy(run: Run, n: nat, actor: Actor)
    requires n < |run.events|
  {
    && run.events[n].channel == Some(Public)
    && run.events[n].effect == Some(Content(actor, Fragment))
  }

  predicate IsEarliest(run: Run, n: nat, actor: Actor) {
    n < |run.events| && PublicFragmentBy(run, n, actor) && forall j :: 0 <= j < n ==> !PublicFragmentBy(run, j, actor)
  }

  // ---- the checker

  /** The variables of the checking loop. */
  datatype Tracker = Tracker(state: State, publicSink: seq<string>, vaultSink: seq<string>, exposed0: Option<nat>,
                             exposed1: Option<nat>, first: Option<nat>, localAll: bool, permittedAll: bool,
                             fullAll: bool)

  const START := Tracker(0, [], [], None, None, None, true, true, true)

  /** What the loop has established: `qs` are the requests behind the events seen so far. */
  ghost predicate Followed(run: Run, qs: seq<Request>, t: Tracker)
    requires Complete(run)
  {
    && |qs| <= |run.events| && run.events[..|qs|] == HostEvents(HostOf(run), qs)
    && Folded(HostOf(run), qs, t) && Counted(HostOf(run), qs, t)
  }

  ghost predicate Folded(h: Host, qs: seq<Request>, t: Tracker) {
    && t.state == StateAfter(h, qs)
    && t.publicSink == HostSink(h, qs, Public) && t.vaultSink == HostSink(h, qs, Vault)
    && t.exposed0 == Earliest(h, qs, 0) && t.exposed1 == Earliest(h, qs, 1)
    && t.first == FirstForbidden(h, qs)
  }

  ghost predicate Counted(h: Host, qs: seq<Request>, t: Tracker) {
    (t.localAll <==> AllLocal(h, qs)) && (t.permittedAll <==> AllDelivered(h, qs)) && (t.fullAll <==> AllGuarded(h, qs))
  }

  ghost predicate AllLocal(h: Host, qs: seq<Request>) {
    forall n :: 0 <= n < |qs| ==> RowFor(h, StateAfter(h, qs[..n]), qs[n]).local == 1
  }

  ghost predicate AllGuarded(h: Host, qs: seq<Request>) {
    forall n :: 0 <= n < |qs| ==> RowFor(h, StateAfter(h, qs[..n]), qs[n]).guarded == 1
  }

  ghost predicate AllDelivered(h: Host, qs: seq<Request>) {
    forall n :: 0 <= n < |qs| ==> Delivers(h, qs, n)
  }

  lemma AllSnoc(h: Host, qs: seq<Request>, q: Request)
    ensures AllLocal(h, qs + [q]) <==> AllLocal(h, qs) && RowFor(h, StateAfter(h, qs), q).local == 1
    ensures AllGuarded(h, qs + [q]) <==> AllGuarded(h, qs) && RowFor(h, StateAfter(h, qs), q).guarded == 1
    ensures AllDelivered(h, qs + [q]) <==> AllDelivered(h, qs) && Chosen(h, StateAfter(h, qs), q)
  {
    var rs := qs + [q];
    assert rs[..|qs|] == qs && rs[|qs|] == q;
    assert forall n :: 0 <= n < |qs| ==> rs[..n] == qs[..n] && rs[n] == qs[n];
    assert AllLocal(h, rs) ==> RowFor(h, StateAfter(h, rs[..|qs|]), rs[|qs|]).local == 1;
    assert AllGuarded(h, rs) ==> RowFor(h, StateAfter(h, rs[..|qs|]), rs[|qs|]).guarded == 1;
    assert AllDelivered(h, rs) ==> Delivers(h, rs, |qs|);
    assert forall n :: 0 <= n < |qs| ==> Delivers(h, rs, n) == Delivers(h, qs, n);
  }

  /** If a host produced the run, its next event is the host's answer to some request. */
  lemma ProducedNext(run: Run, rs: seq<Request>, qs: seq<Request>)
    requires Complete(run) && ProducedBy(run, rs) && |qs| < |run.events|
    requires run.principals.value.0 != run.principals.value.1 && run.events[..|qs|] == HostEvents(HostOf(run), qs)
    ensures |rs| == |run.events| && rs[..|qs|] == qs
    ensures run.events[|qs|] == HostEvent(HostOf(run), |qs|, StateAfter(HostOf(run), qs), rs[|qs|])
  {
    EventsOfPrefix(HostOf(run), rs, |qs|);
    RequestsAreUnique(HostOf(run), rs[..|qs|], qs);
    EventAt(HostOf(run), rs, |qs|);
  }

  lemma EventsOfPrefix(h: Host, rs: seq<Request>, n: nat)
    requires n <= |rs|
    ensures HostEvents(h, rs)[..n] == HostEvents(h, rs[..n])
  {
    forall j | 0 <= j < n
      ensures HostEvents(h, rs)[j] == HostEvents(h, rs[..n])[j]
    {
      EventAt(h, rs, j);
      EventAt(h, rs[..n], j);
      PrefixOfPrefix(rs, j, n);
    }
  }

  /** One accepted event extends everything that is carried along. */
  lemma FollowedSnoc(run: Run, qs: seq<Request>, q: Request, t: Tracker)
    requires Complete(run) && |qs| < |run.events| && Followed(run, qs, t)
    requires run.events[|qs|] == HostEvent(HostOf(run), |qs|, t.state, q)
    ensures Followed(run, qs + [q], Advance(HostOf(run), |qs|, q, t))
  {
    EventsSnoc(run, qs, q);
    FoldedSnoc(HostOf(run), qs, q, t);
    CountedSnoc(HostOf(run), qs, q, t);
  }

  lemma EventsSnoc(run: Run, qs: seq<Request>, q: Request)
    requires Complete(run) && |qs| < |run.events| && run.events[..|qs|] == HostEvents(HostOf(run), qs)
    requires run.events[|qs|] == HostEvent(HostOf(run), |qs|, StateAfter(HostOf(run), qs), q)
    ensures run.events[..|qs| + 1] == HostEvents(HostOf(run), qs + [q])
  {
    FoldSnoc(HostOf(run), qs, q);
  }

  lemma FoldedSnoc(h: Host, qs: seq<Request>, q: Request, t: Tracker)
    requires Folded(h, qs, t)
    ensures Folded(h, qs + [q], Advance(h, |qs|, q, t))
  {}

  lemma CountedSnoc(h: Host, qs: seq<Request>, q: Request, t: Tracker)
    requires Counted(h, qs, t) && t.state == StateAfter(h, qs)
    ensures Counted(h, qs + [q], Advance(h, |qs|, q, t))
  {
    AllSnoc(h, qs, q);
  }

  lemma FoldSnoc(h: Host, qs: seq<Request>, q: Request)
    ensures StateAfter(h, qs + [q]) == Next(h, StateAfter(h, qs), q)
    ensures HostEvents(h, qs + [q]) == HostEvents(h, qs) + [HostEvent(h, |qs|, StateAfter(h, qs), q)]
    ensures FirstForbidden(h, qs + [q])
            == if FirstForbidden(h, qs).Some? then FirstForbidden(h, qs)
               else if Next(h, StateAfter(h, qs), q) == 3 then Some(|qs|)
               else None
  {}

  lemma SinkSnoc(h: Host, qs: seq<Request>, q: Request, channel: Channel)
    ensures HostSink(h, qs + [q], channel)
            == if q.channel == channel && Chosen(h, StateAfter(h, qs), q)
               then HostSink(h, qs, channel) + [Content(q.actor, q.payload)]
               else HostSink(h, qs, channel)
  {}

  /** What the loop carries after the host's answer to `q`. */
  function Advance(h: Host, i: nat, q: Request, t: Tracker): Tracker {
    Record(t, i, q, Chosen(h, t.state, q), Content(q.actor, q.payload), RowFor(h, t.state, q).local == 1,
           RowFor(h, t.state, q).guarded == 1, Next(h, t.state, q))
  }

  /** The state and the two witnesses always say the same. */
  lemma ExposureAgrees(h: Host, qs: seq<Request>)
    ensures StateAfter(h, qs)
            == (if Earliest(h, qs, 0).Some? then 2 else 0) + (if Earliest(h, qs, 1).Some? then 1 else 0)
  {}

  method Check(run: Run, policy: string) returns (r: Report)
    ensures Judges(r, run, policy)
  {
    if run.format != FORMAT || run.policy != policy {
      return Refusal(Invalid);
    }
    if |run.events| > 256 || |run.id| > 512 {
      return Refusal(Invalid);
    }
    if run.principals.None? || run.grants.None? || run.publicSink.None? || run.vaultSink.None? {
      return Refusal(Inconclusive);
    }
    if !run.complete || run.events == [] {
      return Refusal(Inconclusive);
    }
    var principals, grants := run.principals.value, run.grants.value;
    if !ValidPrincipals(principals, grants) {
      return Refusal(Invalid);
    }
    if exists e :: e in run.events && !FactsPresent(e) {
      return Refusal(Inconclusive);
    }
    r := CheckEvents(run, principals, grants);
  }

  method CheckEvents(run: Run, principals: (string, string), grants: seq<Grant>) returns (r: Report)
    requires Complete(run) && run.principals == Some(principals) && run.grants == Some(grants)
    requires principals.0 != principals.1
    ensures if HostProduced(run) then exists qs :: ProducedBy(run, qs) && r == Verdict(HostOf(run), qs)
            else r == Refusal(Invalid)
  {
    ghost var h := HostOf(run);
    ghost var qs: seq<Request> := [];
    var t := START;
    for i := 0 to |run.events|
      invariant |qs| == i && Followed(run, qs, t)
    {
      var next, q := CheckEvent(run, principals, grants, i, t, qs);
      if next.None? {
        return Refusal(Invalid);
      }
      t := next.value;
      qs := qs + [q];
    }
    assert run.events[..|run.events|] == run.events;
    if t.publicSink != run.publicSink.value || t.vaultSink != run.vaultSink.value {
      WrongSinks(run, qs);
      return Refusal(Invalid);
    }
    assert ProducedBy(run, qs);
    ConclusionIsVerdict(h, qs, t);
    r := Conclude(t);
  }

  lemma WrongSinks(run: Run, qs: seq<Request>)
    requires Complete(run) && run.principals.value.0 != run.principals.value.1
    requires run.events == HostEvents(HostOf(run), qs)
    ensures HostProduced(run) ==> ProducedBy(run, qs)
  {
    if HostProduced(run) {
      var rs :| ProducedBy(run, rs);
      RequestsAreUnique(HostOf(run), rs, qs);
    }
  }

  /** The report at the end of the loop. */
  function Conclude(t: Tracker): Report {
    var violated := t.first.Some?;
    Report(
      if violated then Violated else Safe,
      if violated || !t.permittedAll then Deny else Permit,
      if t.localAll then Permit else Deny,
      if t.fullAll then Permit else Deny,
      t.first,
      if violated then
        (if t.exposed0.Some? then [t.exposed0.value] else []) + (if t.exposed1.Some? then [t.exposed1.value] else [])
      else [],
      Some((Exposes(t.state, 0), Exposes(t.state, 1))))
  }

  lemma ConclusionIsVerdict(h: Host, qs: seq<Request>, t: Tracker)
    requires Folded(h, qs, t) && Counted(h, qs, t)
    ensures Conclude(t) == Verdict(h, qs)
  {
    FirstEndsShortestPrefix(h, qs);
  }

  /** One event of the loop; `None` when it is not what the host would have recorded. */
  method CheckEvent(run: Run, principals: (string, string), grants: seq<Grant>, i: nat, t: Tracker,
                    ghost qs: seq<Request>)
    returns (next: Option<Tracker>, ghost q: Request)
    requires Complete(run) && run.principals == Some(principals) && run.grants == Some(grants)
    requires principals.0 != principals.1 && i < |run.events| && |qs| == i && Followed(run, qs, t)
    ensures next.Some? ==> Followed(run, qs + [q], next.value)
    ensures next.None? ==> !HostProduced(run)
  {
    ghost var h := HostOf(run);
    var event := run.events[i];
    assert event in run.events;
    var principal := event.principal.value;
    var channel, payload, auth := event.channel.value, event.payload.value, event.authenticated.value;
    if principal != principals.0 && principal != principals.1 {
      NotProduced(run, qs);
      q := Request(0, channel, payload, auth);
      return None, q;
    }
    var actor: Actor := if principal == principals.0 then 0 else 1;
    var request := Request(actor, channel, payload, auth);
    q := request;
    var scope := Delegated(grants, principal, channel, payload);
    var row := Transition(t.state, actor, payload, channel, auth, scope);
    var chosen := if run.guarded then row.guarded else row.local;
    var expected := if chosen == 1 then Content(actor, payload) else "";
    if event.index != i || event.local != DecisionOf(row.local) || event.decision != DecisionOf(chosen)
       || event.effect.value != expected {
      MismatchIsNotProduced(run, qs, q);
      return None, q;
    }
    assert event == HostEvent(h, i, t.state, q);
    var accepted := AcceptEvent(run, request, scope, row, i, t, qs);
    next := Some(accepted);
  }

  /** An event that agrees with the table: the comparator looks at the deliveries so far, not at the table, and yet it
      never disagrees; nor does the state ever differ from the witnesses. */
  method AcceptEvent(run: Run, q: Request, scope: bool, row: Row, i: nat, t: Tracker, ghost qs: seq<Request>)
    returns (u: Tracker)
    requires Complete(run) && i < |run.events| && |qs| == i && Followed(run, qs, t)
    requires scope == Delegated(HostOf(run).grants, HostOf(run).Name(q.actor), q.channel, q.payload)
    requires row == RowFor(HostOf(run), t.state, q) && run.events[i] == HostEvent(HostOf(run), i, t.state, q)
    ensures Followed(run, qs + [q], u)
  {
    ghost var h := HostOf(run);
    ExposureAgrees(h, qs);
    var chosen := if run.guarded then row.guarded else row.local;
    var conventional := Conventional(t, q, scope);
    if (if run.guarded then conventional else q.authenticated && scope) != (chosen == 1) {
      assert false;
    }
    FollowedSnoc(run, qs, q, t);
    u := Record(t, i, q, chosen == 1, Content(q.actor, q.payload), row.local == 1, conventional,
                if run.guarded then row.guardedNext else row.openNext);
    ExposureAgrees(h, qs + [q]);
    if u.state != (if u.exposed0.Some? then 2 else 0) + (if u.exposed1.Some? then 1 else 0) {
      assert false;
    }
  }

  /** The comparator: would all fragments be out if this one were delivered? */
  function Conventional(t: Tracker, q: Request, scope: bool): (r: bool)
    requires t.state == (if t.exposed0.Some? then 2 else 0) + (if t.exposed1.Some? then 1 else 0)
    ensures r <==> Transition(t.state, q.actor, q.payload, q.channel, q.authenticated, scope).guarded == 1
  {
    var candidate := q.channel == Public && q.payload == Fragment;
    var all0 := t.exposed0.Some? || (candidate && q.actor == 0);
    var all1 := t.exposed1.Some? || (candidate && q.actor == 1);
    q.authenticated && scope && !(all0 && all1)
  }

  /** The updates made for an accepted event. */
  function Record(t: Tracker, i: nat, q: Request, delivered: bool, bytes: string, local: bool, conventional: bool,
                  state: State): Tracker
  {
    var exposes := delivered && q.channel == Public && q.payload == Fragment;
    Tracker(state,
            if delivered && q.channel == Public then t.publicSink + [bytes] else t.publicSink,
            if delivered && q.channel == Vault then t.vaultSink + [bytes] else t.vaultSink,
            if exposes && q.actor == 0 && t.exposed0.None? then Some(i) else t.exposed0,
            if exposes && q.actor == 1 && t.exposed1.None? then Some(i) else t.exposed1,
            if state == 3 && t.first.None? then Some(i) else t.first,
            t.localAll && local, t.permittedAll && delivered, t.fullAll && conventional)
  }

  /** An event that no request explains is not the host's. */
  lemma NotProduced(run: Run, qs: seq<Request>)
    requires Complete(run) && |qs| < |run.events| && run.principals.value.0 != run.principals.value.1
    requires run.events[..|qs|] == HostEvents(HostOf(run), qs)
    requires forall q :: run.events[|qs|] != HostEvent(HostOf(run), |qs|, StateAfter(HostOf(run), qs), q)
    ensures !HostProduced(run)
  {
    forall rs: seq<Request>
      ensures !ProducedBy(run, rs)
    {
      if ProducedBy(run, rs) {
        ProducedNext(run, rs, qs);
        assert false;
      }
    }
  }

  // ---- the host

  /** An event carries its request, so it is enough to compare it with the host's answer to that one. */
  lemma MismatchIsNotProduced(run: Run, qs: seq<Request>, q: Request)
    requires Complete(run) && |qs| < |run.events| && run.principals.value.0 != run.principals.value.1
    requires run.events[..|qs|] == HostEvents(HostOf(run), qs)
    requires Carries(HostOf(run), run.events[|qs|], q)
    requires run.events[|qs|] != HostEvent(HostOf(run), |qs|, StateAfter(HostOf(run), qs), q)
    ensures !HostProduced(run)
  {
    forall r ensures run.events[|qs|] != HostEvent(HostOf(run), |qs|, StateAfter(HostOf(run), qs), r) {
      assert Carries(HostOf(run), HostEvent(HostOf(run), |qs|, StateAfter(HostOf(run), qs), r), r);
    }
    NotProduced(run, qs);
  }

  predicate Carries(h: Host, e: Event, q: Request) {
    && e.principal == Some(h.Name(q.actor)) && e.channel == Some(q.channel) && e.payload == Some(q.payload)
    && e.authenticated == Some(q.authenticated)
  }

  /** All four kinds of delivery for each principal; the second principal's may be revoked. */
  function DeclaredGrants(principals: (string, string), revokeB: bool): seq<Grant> {
    GrantsOf(principals.0) + if revokeB then [] else GrantsOf(principals.1)
  }

  function GrantsOf(principal: string): seq<Grant> {
    [Grant(principal, Public, Fragment, TASK), Grant(principal, Public, Summary, TASK),
     Grant(principal, Vault, Fragment, TASK), Grant(principal, Vault, Summary, TASK)]
  }

  lemma GrantsAreValid(p: (string, string), revokeB: bool)
    requires p.0 != "" && p.1 != "" && p.0 != p.1
    ensures ValidPrincipals(p, DeclaredGrants(p, revokeB))
  {}

  /** The declared grants delegate everything to both principals, or nothing to the second one when it is revoked. */
  lemma DeclaredGrantsDelegate(p: (string, string), revokeB: bool, actor: Actor, channel: Channel, payload: Payload)
    requires p.0 != p.1
    ensures Delegated(DeclaredGrants(p, revokeB), if actor == 0 then p.0 else p.1, channel, payload)
            <==> !(revokeB && actor == 1)
  {
    assert Grant(p.0, channel, payload, TASK) in GrantsOf(p.0) && Grant(p.1, channel, payload, TASK) in GrantsOf(p.1);
  }

  /** The host's loop: deliver or withhold each request, and record what was done. */
  method Serve(h: Host, requests: seq<Request>)
    returns (events: seq<Event>, publicSink: seq<string>, vaultSink: seq<string>)
    ensures events == HostEvents(h, requests)
    ensures publicSink == HostSink(h, requests, Public) && vaultSink == HostSink(h, requests, Vault)
  {
    var state: State := 0;
    events, publicSink, vaultSink := [], [], [];
    for n := 0 to |requests|
      invariant events == HostEvents(h, requests[..n]) && state == StateAfter(h, requests[..n])
      invariant publicSink == HostSink(h, requests[..n], Public) && vaultSink == HostSink(h, requests[..n], Vault)
    {
      var q := requests[n];
      assert requests[..n + 1] == requests[..n] + [q];
      FoldSnoc(h, requests[..n], q);
      SinkSnoc(h, requests[..n], q, Public);
      SinkSnoc(h, requests[..n], q, Vault);
      var row := Transition(state, q.actor, q.payload, q.channel, q.authenticated,
                            Delegated(h.grants, h.Name(q.actor), q.channel, q.payload));
      var chosen := if h.guarded then row.guarded else row.local;
      var effect := "";
      if chosen == 1 {
        effect := Content(q.actor, q.payload);
        if q.channel == Public {
          publicSink := publicSink + [effect];
        } else {
          vaultSink := vaultSink + [effect];
        }
      }
      events := events + [Event(n, Some(h.Name(q.actor)), Some(q.channel), Some(q.payload), Some(q.authenticated),
                                DecisionOf(row.local), DecisionOf(chosen), Some(effect))];
      state := if h.guarded then row.guardedNext else row.openNext;
    }
    assert requests[..|requests|] == requests;
  }

  lemma HostEventsComplete(h: Host, qs: seq<Request>)
    ensures forall e :: e in HostEvents(h, qs) ==> FactsPresent(e)
  {}

  const PRINCIPALS := ("principal-A", "principal-B")

  lemma PrincipalsAreValid()
    ensures PRINCIPALS.0 != "" && PRINCIPALS.1 != "" && PRINCIPALS.0 != PRINCIPALS.1
  {}

  /** The run that the host makes of the requests. */
  method Execute(id: seq<u8>, guarded: bool, requests: seq<Request>, revokeB: bool, policy: string) returns (run: Run)
    ensures Complete(run) && ProducedBy(run, requests)
    ensures HostOf(run) == Host(PRINCIPALS, DeclaredGrants(PRINCIPALS, revokeB), guarded)
    ensures run.id == id && |run.events| == |requests|
    ensures 1 <= |requests| <= 256 && |id| <= 512 ==> Admission(run, policy).None?
  {
    PrincipalsAreValid();
    GrantsAreValid(PRINCIPALS, revokeB);
    var h := Host(PRINCIPALS, DeclaredGrants(PRINCIPALS, revokeB), guarded);
    run := RunOf(id, h, requests, policy);
  }

  method RunOf(id: seq<u8>, h: Host, requests: seq<Request>, policy: string) returns (run: Run)
    requires ValidPrincipals(h.principals, h.grants)
    ensures Complete(run) && ProducedBy(run, requests) && HostOf(run) == h
    ensures run.id == id && |run.events| == |requests|
    ensures 1 <= |requests| <= 256 && |id| <= 512 ==> Admission(run, policy).None?
  {
    var events, publicSink, vaultSink := Serve(h, requests);
    HostEventsComplete(h, requests);
    run := Run(FORMAT, id, policy, h.guarded, true, Some(h.principals), Some(h.grants), events, Some(publicSink),
               Some(vaultSink));
    assert Complete(run) && ProducedBy(run, requests);
  }

  /** Every run of the host is accepted by the checker, with the verdict of its own requests. */
  method ExecuteThenCheck(id: seq<u8>, guarded: bool, requests: seq<Request>, revokeB: bool, policy: string)
    returns (run: Run, r: Report)
    requires 1 <= |requests| <= 256 && |id| <= 512
    ensures Complete(run) && ProducedBy(run, requests) && r == Verdict(HostOf(run), requests)
    ensures HostOf(run) == Host(PRINCIPALS, DeclaredGrants(PRINCIPALS, revokeB), guarded)
    ensures r.knowledge in {Safe, Violated} && (guarded ==> r.knowledge == Safe)
  {
    run := Execute(id, guarded, requests, revokeB, policy);
    r := Check(run, policy);
    assert HostProduced(run);
    ghost var qs :| ProducedBy(run, qs) && r == Verdict(HostOf(run), qs);
    RequestsAreUnique(HostOf(run), qs, requests);
    if guarded {
      GuardIsSafe(HostOf(run), requests);
    }
  }
}
