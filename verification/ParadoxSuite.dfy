/** The whole suite of detectors with the entrants it makes up, and exactly what it says about the proportional rule. */
module ParadoxSuite {
  import opened Bytes
  import opened BinaryParts
  import opened Allocation
  import opened Paradox

  // ---- entrants

  function CloneOf(c: Claim): Claim { Claim(c.id + "_clone", c.strength) }

  function HalfCloneOf(c: Claim): Claim { Claim(c.id + "_half_clone", c.strength / 2.0) }

  function AverageClaim(claims: seq<Claim>): Claim
    requires claims != []
  {
    Claim("average_entrant", Total(claims) / |claims| as real)
  }

  /** Each claim's clone, followed by the half-strength clone of one that is not tiny. */
  function ClonesOf(claims: seq<Claim>): seq<Claim> {
    if claims == [] then [] else
      var last := claims[|claims| - 1];
      ClonesOf(claims[..|claims| - 1]) + [CloneOf(last)] + if last.strength > EPSILON then [HalfCloneOf(last)] else []
  }

  function Candidates(claims: seq<Claim>): seq<Claim> {
    ClonesOf(claims) + if claims != [] then [AverageClaim(claims)] else []
  }

  method EntrantCandidates(claims: seq<Claim>) returns (entrants: seq<Claim>)
    ensures entrants == Candidates(claims)
    ensures forall c :: c in entrants <==> IsCandidate(claims, c)
  {
    entrants := [];
    for i := 0 to |claims|
      invariant entrants == ClonesOf(claims[..i])
    {
      entrants := entrants + [CloneOf(claims[i])];
      if claims[i].strength > EPSILON {
        entrants := entrants + [HalfCloneOf(claims[i])];
      }
      assert claims[..i + 1][..i] == claims[..i];
    }
    assert claims[..|claims|] == claims;
    if claims != [] {
      entrants := entrants + [AverageClaim(claims)];
    }
    CandidatesAre(claims);
  }

  ghost predicate IsCloneAmong(claims: seq<Claim>, c: Claim) {
    exists i | 0 <= i < |claims| :: IsCloneOf(claims[i], c)
  }

  predicate IsCloneOf(original: Claim, c: Claim) {
    c == CloneOf(original) || (original.strength > EPSILON && c == HalfCloneOf(original))
  }

  /** A clone of a claim, a half-strength clone of a claim that is not tiny, or the average of all. */
  ghost predicate IsCandidate(claims: seq<Claim>, c: Claim) {
    IsCloneAmong(claims, c) || (claims != [] && c == AverageClaim(claims))
  }

  lemma {:induction false} ClonesAre(claims: seq<Claim>, c: Claim)
    ensures c in ClonesOf(claims) <==> IsCloneAmong(claims, c)
  {
    if claims != [] {
      var n := |claims| - 1;
      ClonesAre(claims[..n], c);
      assert forall i | 0 <= i < n :: claims[..n][i] == claims[i];
      if IsCloneAmong(claims[..n], c) {
        var i :| 0 <= i < n && IsCloneOf(claims[..n][i], c);
        assert IsCloneOf(claims[i], c);
      }
      if IsCloneAmong(claims, c) && !IsCloneOf(claims[n], c) {
        var i :| 0 <= i < |claims| && IsCloneOf(claims[i], c);
        assert IsCloneOf(claims[..n][i], c);
      }
    }
  }

  lemma CandidatesAre(claims: seq<Claim>)
    ensures forall c :: c in Candidates(claims) <==> IsCandidate(claims, c)
  {
    forall c ensures c in Candidates(claims) <==> IsCandidate(claims, c) { ClonesAre(claims, c); }
  }

  lemma CandidateIsNotBlank(claims: seq<Claim>, c: Claim)
    requires IsCandidate(claims, c)
    ensures !Blank(c.id)
  {
    assert !IsWhitespace(c.id[|c.id| - 1]);
  }

  // ---- claimant addition

  function CompareShares(original: Allocation, perturbed: Allocation, id: string): Finding {
    match (ShareFor(original, id), ShareFor(perturbed, id))
    case (Err(fault), _) => Failed(fault)
    case (_, Err(fault)) => Failed(fault)
    case (Ok(was), Ok(now)) =>
      if now + EPSILON < was then Violates(ParadoxViolation(ClaimantAddition, original, perturbed)) else Clear
  }

  /** Entrant e joins, and the claimant at k is compared with itself; the last index is not used. */
  function AdditionAt(evaluate: Evaluation, claims: seq<Claim>, estate: Positive, original: Allocation,
                      entrants: seq<Claim>, e: nat, k: nat, unused: nat): Finding
  {
    if e >= |entrants| then Clear else
      match evaluate(ClaimsWithEntrant(claims, entrants[e]), estate)
      case Err(fault) => Failed(fault)
      case Ok(perturbed) => if k >= |claims| then Clear else CompareShares(original, perturbed, claims[k].id)
  }

  method DetectClaimantAddition(evaluate: Evaluation, claims: seq<Claim>, estate: Positive, original: Allocation,
                                entrants: seq<Claim>)
    returns (r: Result<Option<ParadoxViolation>, Fault>)
    ensures Reports((e: nat, k: nat, u: nat) => AdditionAt(evaluate, claims, estate, original, entrants, e, k, u), r)
  {
    ghost var at: (nat, nat, nat) -> Finding :=
      (e: nat, k: nat, u: nat) => AdditionAt(evaluate, claims, estate, original, entrants, e, k, u);
    for e := 0 to |entrants|
      invariant ClearBefore(at, e, 0, 0)
    {
      var evaluated := evaluate(ClaimsWithEntrant(claims, entrants[e]), estate);
      if evaluated.Err? {
        assert FirstAt(at, e, 0, 0, Failed(evaluated.error));
        return Err(evaluated.error);
      }
      for k := 0 to |claims|
        invariant ClearBefore(at, e, k, 0)
      {
        var finding := CompareShares(original, evaluated.value, claims[k].id);
        assert at(e, k, 0) == finding;
        if finding.Failed? {
          assert FirstAt(at, e, k, 0, finding);
          return Err(finding.fault);
        }
        if finding.Violates? {
          assert FirstAt(at, e, k, 0, finding);
          return Ok(Some(finding.violation));
        }
      }
    }
    return Ok(None);
  }

  // ---- the suite

  function Found(r: Result<Option<ParadoxViolation>, Fault>): seq<ParadoxViolation> {
    if r.Ok? && r.value.Some? then [r.value.value] else []
  }

  /** The first error of the three searches, or what they found, in order. */
  function Combined(addition: Result<Option<ParadoxViolation>, Fault>,
                    population: Result<Option<ParadoxViolation>, Fault>,
                    priority: Result<Option<ParadoxViolation>, Fault>): Result<seq<ParadoxViolation>, Fault>
  {
    if addition.Err? then Err(addition.error)
    else if population.Err? then Err(population.error)
    else if priority.Err? then Err(priority.error)
    else Ok(Found(addition) + Found(population) + Found(priority))
  }

  /** The three searches over these entrants give this result. */
  ghost predicate SuiteReports(evaluate: Evaluation, claims: seq<Claim>, estate: Positive, original: Allocation,
                               entrants: seq<Claim>, r: Result<seq<ParadoxViolation>, Fault>)
  {
    exists addition, population, priority ::
     
      && Reports((e: nat, k: nat, u: nat) =>
                   AdditionAt(evaluate, claims, estate, original, entrants, e, k, u), addition)
      && Reports((i: nat, d: nat, j: nat) => PopulationAt(evaluate, claims, estate, original, i, d, j), population)
     
      && Reports((e: nat, a: nat, b: nat) =>
                   PriorityAt(evaluate, claims, estate, original, entrants, e, a, b), priority)
      && r == Combined(addition, population, priority)
  }

  method RunParadoxSuite(evaluate: Evaluation, claims: seq<Claim>, estate: Positive)
    returns (r: Result<seq<ParadoxViolation>, Fault>)
    ensures match evaluate(claims, estate)
            case Err(fault) => r == Err(fault)
            case Ok(original) => SuiteReports(evaluate, claims, estate, original, Candidates(claims), r)
  {
    var original := evaluate(claims, estate);
    if original.Err? { return Err(original.error); }
    var entrants := EntrantCandidates(claims);
    var addition := DetectClaimantAddition(evaluate, claims, estate, original.value, entrants);
    var population := DetectPopulation(evaluate, claims, estate, original.value);
    var priority := DetectPriority(evaluate, claims, estate, original.value, entrants);
    r := Combined(addition, population, priority);
  }

  // ---- the proportional rule

  /** What a claim of strength s loses when a claim of strength e joins a total of t. */
  function Drop(s: real, e: real, estate: real, t: Positive): real
    requires t + e > 0.0
  {
    Share(s, estate, t) - Share(s, estate, t + e)
  }

  lemma LargerTotalSmallerShare(s: real, estate: Positive, t: Positive, u: Positive)
    requires s >= 0.0 && t <= u
    ensures Share(s, estate, u) <= Share(s, estate, t)
  {
    var x, y := Share(s, estate, t), Share(s, estate, u);
    assert x * t == s * estate == y * u;
    assert y >= 0.0;
    if x < y {
      ScaleStrictly(x, y, t);
      Scale(u, t, y);
    }
  }

  /** The strongest claimant loses most, and most to the strongest entrant. */
  lemma DropGrows(s: Positive, e: Positive, m: Positive, estate: Positive, t: Positive)
    requires s <= m && e <= m
    ensures Drop(s, e, estate, t) <= Drop(m, m, estate, t)
  {
    LargerTotalSmallerShare(s, estate, t + e, t + m);
    LargerTotalSmallerShare(m - s, estate, t, t + m);
    ShareSplits(s, m - s, m, estate, t);
    ShareSplits(s, m - s, m, estate, t + m);
  }

  lemma ShareSplits(a: real, b: real, c: real, estate: real, total: Positive)
    requires c == a + b
    ensures Share(c, estate, total) == Share(a, estate, total) + Share(b, estate, total)
  {
    var price: real -> real := x => Share(x, estate, total);
    ShareIsAdditive(estate, total);
    assert AddsAt(price, a, b);
  }

  /** What a caller can compute to know whether an addition is reported. */
  predicate LosesMuch(m: Positive, estate: Positive, t: Positive) { m * m * estate > EPSILON * (t * (t + m)) }

  lemma DropOfStrongest(m: Positive, estate: Positive, t: Positive)
    ensures Drop(m, m, estate, t) > EPSILON <==> LosesMuch(m, estate, t)
  {
    var x, y, bottom := Share(m, estate, t), Share(m, estate, t + m), t * (t + m);
    assert x * t == m * estate && y * (t + m) == m * estate;
    DropTimesBottom(x, y, m, estate, t, bottom, x - y);
    CompareScaled(x - y, EPSILON, bottom);
  }

  lemma DropTimesBottom(x: real, y: real, m: real, estate: real, t: real, bottom: real, drop: real)
    requires x * t == m * estate && y * (t + m) == m * estate && bottom == t * (t + m) && drop == x - y
    ensures drop * bottom == m * m * estate
  {
    assert x * bottom == (x * t) * (t + m);
    assert y * bottom == (y * (t + m)) * t;
    assert (m * estate) * (t + m) - (m * estate) * t == m * m * estate;
  }

  lemma CompareScaled(a: real, b: real, factor: real)
    requires factor > 0.0
    ensures a > b <==> a * factor > b * factor
  {}

  ghost predicate IsStrongest(claims: seq<Claim>, m: Positive) {
    (exists k | 0 <= k < |claims| :: m == claims[k].strength) && forall k | 0 <= k < |claims| :: claims[k].strength <= m
  }

  lemma {:induction false} TotalAtMost(claims: seq<Claim>, m: Positive, bound: real)
    requires (forall k | 0 <= k < |claims| :: claims[k].strength <= m) && bound == |claims| as real * m
    ensures Total(claims) <= bound
  {
    if claims != [] {
      var n := |claims| - 1;
      assert forall k | 0 <= k < n :: claims[..n][k].strength <= m;
      TotalAtMost(claims[..n], m, n as real * m);
      assert |claims| as real * m == n as real * m + m;
    }
  }

  lemma MeanAtMost(total: real, n: Positive, m: real)
    requires total <= n * m
    ensures total / n <= m
  {
    var mean := total / n;
    assert mean * n == total;
    if mean > m { ScaleStrictly(m, mean, n); }
  }

  lemma CandidateIsNoStronger(claims: seq<Claim>, c: Claim, m: Positive)
    requires IsCandidate(claims, c) && IsStrongest(claims, m)
    ensures c.strength <= m
  {
    if IsCloneAmong(claims, c) {
      var i :| 0 <= i < |claims| && IsCloneOf(claims[i], c);
      assert c.strength <= claims[i].strength;
    } else {
      TotalAtMost(claims, m, |claims| as real * m);
      MeanAtMost(Total(claims), |claims| as real, m);
    }
  }

  /** Claimant k loses more than the tolerance to entrant e. */
  predicate LosesTo(claims: seq<Claim>, estate: Positive, entrants: seq<Claim>, e: nat, k: nat) {
    && e < |entrants| && k < |claims|
    && Drop(claims[k].strength, entrants[e].strength, estate, Total(claims)) > EPSILON
  }

  /** Exactly when the comparison with one entrant fails, and when it is a violation. */
  lemma AdditionFinding(claims: seq<Claim>, estate: Positive, entrants: seq<Claim>, e: nat, k: nat, u: nat)
    requires WellFormed(claims)
    ensures var finding := AdditionAt(ProportionalRule, claims, estate, Shares(claims, estate), entrants, e, k, u);
            if e < |entrants| && !WellFormed(ClaimsWithEntrant(claims, entrants[e])) then finding.Failed?
            else if LosesTo(claims, estate, entrants, e, k)
            then finding.Violates? && finding.violation.kind == ClaimantAddition
            else finding == Clear
  {
    if e < |entrants| {
      var joined := ClaimsWithEntrant(claims, entrants[e]);
      ProportionalIsShares(joined, estate);
      if WellFormed(joined) && k < |claims| {
        TotalWithEntrant(claims, entrants[e]);
        SharesAt(claims, estate, k);
        SharesAt(joined, estate, k);
        ComparesDrop(Shares(claims, estate), Shares(joined, estate), claims[k].id, claims[k].strength,
                     entrants[e].strength,
                     estate, Total(claims));
      }
    }
  }

  lemma TotalWithEntrant(claims: seq<Claim>, c: Claim)
    ensures Total(ClaimsWithEntrant(claims, c)) == Total(claims) + c.strength
  {
    var joined := ClaimsWithEntrant(claims, c);
    assert joined[..|joined| - 1] == claims;
  }

  lemma ComparesDrop(original: Allocation, perturbed: Allocation, id: string, s: Positive, e: Positive,
                     estate: Positive, t: Positive)
    requires ShareFor(original, id) == Ok(Share(s, estate, t)) && ShareFor(perturbed, id) == Ok(Share(s, estate, t + e))
    ensures CompareShares(original, perturbed, id)
            == if Drop(s, e, estate, t) > EPSILON
               then Violates(ParadoxViolation(ClaimantAddition, original, perturbed)) else Clear
  {}

  /** Some made-up entrant has the id of a claimant. */
  ghost predicate Collides(claims: seq<Claim>) {
    exists c :: IsCandidate(claims, c) && c.id in Ids(claims)
  }

  /** Two valid claims for which the suite cannot be carried out. */
  lemma CollisionExample(a: Claim, b: Claim)
    requires a == Claim("A", 1.0) && b == Claim("A_clone", 1.0)
    ensures WellFormed([a, b]) && Collides([a, b])
  {
    assert [a, b][0] == a && [a, b][1] == b;
    assert IsCandidate([a, b], CloneOf(a));
    assert !IsWhitespace(a.id[0]) && !IsWhitespace(b.id[0]);
  }

  lemma EntrantIsValid(claims: seq<Claim>, c: Claim)
    requires WellFormed(claims) && IsCandidate(claims, c)
    ensures WellFormed(ClaimsWithEntrant(claims, c)) <==> c.id !in Ids(claims)
  {
    CandidateIsNotBlank(claims, c);
    AppendedIsWellFormed(claims, c);
  }

  /** A loss of anybody to any candidate is reported exactly when the strongest claimant would lose to its own clone. */
  lemma LossesAreDecided(claims: seq<Claim>, estate: Positive, entrants: seq<Claim>, m: Positive)
    requires IsStrongest(claims, m) && forall c :: c in entrants <==> IsCandidate(claims, c)
    ensures (exists e: nat, k: nat :: LosesTo(claims, estate, entrants, e, k)) <==> LosesMuch(m, estate, Total(claims))
  {
    DropOfStrongest(m, estate, Total(claims));
    if e: nat, k: nat :| LosesTo(claims, estate, entrants, e, k) {
      assert entrants[e] in entrants;
      CandidateIsNoStronger(claims, entrants[e], m);
      DropGrows(claims[k].strength, entrants[e].strength, m, estate, Total(claims));
    }
    if LosesMuch(m, estate, Total(claims)) {
      var k: nat :| k < |claims| && m == claims[k].strength;
      assert IsCandidate(claims, CloneOf(claims[k]));
      var e: nat :| e < |entrants| && entrants[e] == CloneOf(claims[k]);
      assert LosesTo(claims, estate, entrants, e, k);
    }
  }

  /** What the suite says about the proportional rule: it fails exactly when a made-up entrant has the id of a claimant;
      otherwise it reports one claimant addition when the strongest claimant loses much, and never anything else. */
  method CheckProportionalSuite(claims: seq<Claim>, estate: Positive, ghost m: Positive)
    returns (r: Result<seq<ParadoxViolation>, Fault>)
    requires WellFormed(claims) && (claims != [] ==> IsStrongest(claims, m))
    ensures r.Err? <==> Collides(claims)
    ensures r.Ok? ==>
              if claims != [] && LosesMuch(m, estate, Total(claims))
              then |r.value| == 1 && r.value[0].kind == ClaimantAddition
              else r.value == []
  {
    ProportionalIsShares(claims, estate);
    r := RunParadoxSuite(ProportionalRule, claims, estate);
    CandidatesAre(claims);
    SuiteIsDecided(claims, estate, Candidates(claims), r, m);
  }

  lemma SuiteIsDecided(claims: seq<Claim>, estate: Positive, entrants: seq<Claim>,
                       r: Result<seq<ParadoxViolation>, Fault>, m: Positive)
    requires WellFormed(claims) && (claims != [] ==> IsStrongest(claims, m))
    requires forall c :: c in entrants <==> IsCandidate(claims, c)
    requires SuiteReports(ProportionalRule, claims, estate, Shares(claims, estate), entrants, r)
    ensures r.Err? <==> Collides(claims)
    ensures r.Ok? ==>
              if claims != [] && LosesMuch(m, estate, Total(claims))
              then |r.value| == 1 && r.value[0].kind == ClaimantAddition
              else r.value == []
  {
    var original := Shares(claims, estate);
    var addition, population, priority :|
      && Reports((e: nat, k: nat, u: nat) =>
                   AdditionAt(ProportionalRule, claims, estate, original, entrants, e, k, u), addition)
      && Reports((i: nat, d: nat, j: nat) =>
                   PopulationAt(ProportionalRule, claims, estate, original, i, d, j), population)
      && Reports((e: nat, a: nat, b: nat) =>
                   PriorityAt(ProportionalRule, claims, estate, original, entrants, e, a, b), priority)
      && r == Combined(addition, population, priority);
    AdditionIsDecided(claims, estate, entrants, addition);
    PopulationIsDecided(claims, estate, population);
    PriorityIsDecided(claims, estate, entrants, priority);
    if claims != [] {
      LossesAreDecided(claims, estate, entrants, m);
    }
  }

  /** Some entrant is not valid beside the claims. */
  ghost predicate Invalid(claims: seq<Claim>, entrants: seq<Claim>, e: nat) {
    e < |entrants| && !WellFormed(ClaimsWithEntrant(claims, entrants[e]))
  }

  lemma InvalidIsCollision(claims: seq<Claim>, entrants: seq<Claim>)
    requires WellFormed(claims) && forall c :: c in entrants <==> IsCandidate(claims, c)
    ensures (exists e: nat :: Invalid(claims, entrants, e)) <==> Collides(claims)
  {
    if e: nat :| Invalid(claims, entrants, e) {
      assert entrants[e] in entrants;
      EntrantIsValid(claims, entrants[e]);
    }
    if Collides(claims) {
      var c :| IsCandidate(claims, c) && c.id in Ids(claims);
      assert c in entrants;
      var e: nat :| e < |entrants| && entrants[e] == c;
      EntrantIsValid(claims, c);
      assert Invalid(claims, entrants, e);
    }
  }

  lemma AdditionIsDecided(claims: seq<Claim>, estate: Positive, entrants: seq<Claim>,
                          r: Result<Option<ParadoxViolation>, Fault>)
    requires WellFormed(claims) && forall c :: c in entrants <==> IsCandidate(claims, c)
    requires Reports((e: nat, k: nat, u: nat) =>
                       AdditionAt(ProportionalRule, claims, estate, Shares(claims, estate), entrants, e, k, u), r)
    ensures r.Err? ==> Collides(claims)
    ensures r.Ok? && !Collides(claims) ==>
              (r.value.Some? <==> exists e: nat, k: nat :: LosesTo(claims, estate, entrants, e, k))
    ensures r.Ok? && r.value.Some? ==> r.value.value.kind == ClaimantAddition
  {
    var at: (nat, nat, nat) -> Finding := (e: nat, k: nat, u: nat) =>
      AdditionAt(ProportionalRule, claims, estate, Shares(claims, estate), entrants, e, k, u);
    InvalidIsCollision(claims, entrants);
    if r == Ok(None) {
      forall e: nat, k: nat
        ensures !LosesTo(claims, estate, entrants, e, k)
      {
        assert at(e, k, 0) == Clear;
        AdditionFinding(claims, estate, entrants, e, k, 0);
      }
    } else {
      var finding := if r.Ok? then Violates(r.value.value) else Failed(r.error);
      var e: nat, k: nat, u: nat :| FirstAt(at, e, k, u, finding);
      AdditionFinding(claims, estate, entrants, e, k, u);
      if r.Err? { assert Invalid(claims, entrants, e); }
    }
  }

  lemma PopulationIsDecided(claims: seq<Claim>, estate: Positive, r: Result<Option<ParadoxViolation>, Fault>)
    requires WellFormed(claims)
    requires Reports((i: nat, d: nat, j: nat) =>
                       PopulationAt(ProportionalRule, claims, estate, Shares(claims, estate), i, d, j), r)
    ensures r == Ok(None)
  {
    forall i: nat, d: nat, j: nat
      ensures PopulationAt(ProportionalRule, claims, estate, Shares(claims, estate), i, d, j) == Clear
    {
      PopulationIsClear(claims, estate, i, d, j);
    }
  }

  lemma PriorityIsDecided(claims: seq<Claim>, estate: Positive, entrants: seq<Claim>,
                          r: Result<Option<ParadoxViolation>, Fault>)
    requires WellFormed(claims) && forall c :: c in entrants <==> IsCandidate(claims, c)
    requires Reports((e: nat, a: nat, b: nat) =>
                       PriorityAt(ProportionalRule, claims, estate, Shares(claims, estate), entrants, e, a, b), r)
    ensures r.Err? <==> Collides(claims)
    ensures r.Ok? ==> r == Ok(None)
  {
    var at: (nat, nat, nat) -> Finding := (e: nat, a: nat, b: nat) =>
      PriorityAt(ProportionalRule, claims, estate, Shares(claims, estate), entrants, e, a, b);
    InvalidIsCollision(claims, entrants);
    if r == Ok(None) {
      forall e: nat
        ensures !Invalid(claims, entrants, e)
      {
        assert at(e, 0, 0) == Clear;
        PriorityIsClear(claims, estate, entrants, e, 0, 0);
      }
    } else {
      var finding := if r.Ok? then Violates(r.value.value) else Failed(r.error);
      var e: nat, a: nat, b: nat :| FirstAt(at, e, a, b, finding);
      PriorityIsClear(claims, estate, entrants, e, a, b);
      assert Invalid(claims, entrants, e);
    }
  }
}
