/** The population and priority detectors, and what they say about the proportional rule. */
module Paradox {
  import opened Bytes
  import opened BinaryParts
  import opened Allocation

  const POPULATION_DELTAS: seq<Positive> := [0.05, 0.10, 0.20, 0.40]

  datatype Kind = ClaimantAddition | Population | Priority

  datatype ParadoxViolation = ParadoxViolation(kind: Kind, original: Allocation, perturbed: Allocation)

  datatype Order = Less | Equal | Greater

  type Evaluation = (seq<Claim>, Positive) -> Result<Allocation, Fault>

  function ShareFor(allocation: Allocation, id: string): Result<real, Fault> {
    if id in allocation then Ok(allocation[id]) else Err(MissingShare(id))
  }

  /** The left claimant's part of what the two hold together, unless they hold next to nothing. */
  function PairShare(allocation: Allocation, left: string, right: string): Result<Option<real>, Fault> {
    match (ShareFor(allocation, left), ShareFor(allocation, right))
    case (Err(fault), _) => Err(fault)
    case (_, Err(fault)) => Err(fault)
    case (Ok(l), Ok(r)) => if l + r <= EPSILON then Ok(None) else Ok(Some(l / (l + r)))
  }

  function AllocationOrder(allocation: Allocation, left: string, right: string): Result<Order, Fault> {
    match (ShareFor(allocation, left), ShareFor(allocation, right))
    case (Err(fault), _) => Err(fault)
    case (_, Err(fault)) => Err(fault)
    case (Ok(l), Ok(r)) =>
      if Absolute(l - r) <= EPSILON then Ok(Equal) else if l - r < 0.0 then Ok(Less) else Ok(Greater)
  }

  function ClaimsWithEntrant(claims: seq<Claim>, entrant: Claim): seq<Claim> { claims + [entrant] }

  function Strengthened(claims: seq<Claim>, index: nat, delta: Positive): seq<Claim>
    requires index < |claims|
  {
    claims[index := claims[index].(strength := claims[index].strength + delta)]
  }

  // ---- what one comparison finds

  datatype Finding = Clear | Violates(violation: ParadoxViolation) | Failed(fault: Fault)

  function ComparePairShares(original: Allocation, perturbed: Allocation, left: string, right: string): Finding {
    if left == right then Clear else
      match PairShare(original, left, right)
      case Err(fault) => Failed(fault)
      case Ok(None) => Clear
      case Ok(Some(was)) =>
        match PairShare(perturbed, left, right)
        case Err(fault) => Failed(fault)
        case Ok(None) => Clear
        case Ok(Some(now)) =>
          if now + EPSILON < was then Violates(ParadoxViolation(Population, original, perturbed)) else Clear
  }

  function CompareOrders(original: Allocation, perturbed: Allocation, left: string, right: string): Finding {
    match (AllocationOrder(original, left, right), AllocationOrder(perturbed, left, right))
    case (Err(fault), _) => Failed(fault)
    case (_, Err(fault)) => Failed(fault)
    case (Ok(was), Ok(now)) =>
      if was != Equal && now != Equal && was != now
      then Violates(ParadoxViolation(Priority, original, perturbed)) else Clear
  }

  /** Claimant i is strengthened by delta d and compared with claimant j. */
  function PopulationAt(evaluate: Evaluation, claims: seq<Claim>, estate: Positive, original: Allocation,
                        i: nat, d: nat, j: nat): Finding
  {
    if i >= |claims| || d >= |POPULATION_DELTAS| then Clear else
      match evaluate(Strengthened(claims, i, POPULATION_DELTAS[d]), estate)
      case Err(fault) => Failed(fault)
      case Ok(perturbed) =>
        if j >= |claims| then Clear else ComparePairShares(original, perturbed, claims[i].id, claims[j].id)
  }

  /** Entrant e joins, and the claimants at l and r are compared. */
  function PriorityAt(evaluate: Evaluation, claims: seq<Claim>, estate: Positive, original: Allocation,
                      entrants: seq<Claim>, e: nat, l: nat, r: nat): Finding
  {
    if e >= |entrants| then Clear else
      match evaluate(ClaimsWithEntrant(claims, entrants[e]), estate)
      case Err(fault) => Failed(fault)
      case Ok(perturbed) =>
        if r >= |claims| || r <= l then Clear else CompareOrders(original, perturbed, claims[l].id, claims[r].id)
  }

  // ---- the detectors report the first finding

  ghost predicate Before(a: nat, b: nat, c: nat, i: nat, j: nat, k: nat) {
    a < i || (a == i && (b < j || (b == j && c < k)))
  }

  ghost predicate ClearBefore(at: (nat, nat, nat) -> Finding, i: nat, j: nat, k: nat) {
    forall a: nat, b: nat, c: nat | Before(a, b, c, i, j, k) :: at(a, b, c) == Clear
  }

  ghost predicate FirstAt(at: (nat, nat, nat) -> Finding, i: nat, j: nat, k: nat, finding: Finding) {
    ClearBefore(at, i, j, k) && at(i, j, k) == finding != Clear
  }

  /** Nothing is reported exactly when every comparison is clear; otherwise the first one that is not. */
  ghost predicate Reports(at: (nat, nat, nat) -> Finding, r: Result<Option<ParadoxViolation>, Fault>) {
    match r
    case Ok(None) => forall a: nat, b: nat, c: nat :: at(a, b, c) == Clear
    case Ok(Some(violation)) => exists i: nat, j: nat, k: nat :: FirstAt(at, i, j, k, Violates(violation))
    case Err(fault) => exists i: nat, j: nat, k: nat :: FirstAt(at, i, j, k, Failed(fault))
  }

  method DetectPopulation(evaluate: Evaluation, claims: seq<Claim>, estate: Positive, original: Allocation)
    returns (r: Result<Option<ParadoxViolation>, Fault>)
    ensures Reports((i: nat, d: nat, j: nat) => PopulationAt(evaluate, claims, estate, original, i, d, j), r)
  {
    ghost var at: (nat, nat, nat) -> Finding :=
      (i: nat, d: nat, j: nat) => PopulationAt(evaluate, claims, estate, original, i, d, j);
    for i := 0 to |claims|
      invariant ClearBefore(at, i, 0, 0)
    {
      for d := 0 to |POPULATION_DELTAS|
        invariant ClearBefore(at, i, d, 0)
      {
        var evaluated := evaluate(Strengthened(claims, i, POPULATION_DELTAS[d]), estate);
        if evaluated.Err? {
          assert FirstAt(at, i, d, 0, Failed(evaluated.error));
          return Err(evaluated.error);
        }
        for j := 0 to |claims|
          invariant ClearBefore(at, i, d, j)
        {
          var finding := ComparePairShares(original, evaluated.value, claims[i].id, claims[j].id);
          assert at(i, d, j) == finding;
          if finding.Failed? {
            assert FirstAt(at, i, d, j, finding);
            return Err(finding.fault);
          }
          if finding.Violates? {
            assert FirstAt(at, i, d, j, finding);
            return Ok(Some(finding.violation));
          }
        }
      }
    }
    return Ok(None);
  }

  method DetectPriority(evaluate: Evaluation, claims: seq<Claim>, estate: Positive, original: Allocation,
                        entrants: seq<Claim>)
    returns (r: Result<Option<ParadoxViolation>, Fault>)
    ensures Reports((e: nat, left: nat, right: nat) =>
                      PriorityAt(evaluate, claims, estate, original, entrants, e, left, right), r)
  {
    ghost var at: (nat, nat, nat) -> Finding :=
      (e: nat, left: nat, right: nat) => PriorityAt(evaluate, claims, estate, original, entrants, e, left, right);
    for e := 0 to |entrants|
      invariant ClearBefore(at, e, 0, 0)
    {
      var evaluated := evaluate(ClaimsWithEntrant(claims, entrants[e]), estate);
      if evaluated.Err? {
        assert FirstAt(at, e, 0, 0, Failed(evaluated.error));
        return Err(evaluated.error);
      }
      for left := 0 to |claims|
        invariant ClearBefore(at, e, left, 0)
      {
        for right := left + 1 to |claims|
          invariant ClearBefore(at, e, left, right)
        {
          var finding := CompareOrders(original, evaluated.value, claims[left].id, claims[right].id);
          assert at(e, left, right) == finding;
          if finding.Failed? {
            assert FirstAt(at, e, left, right, finding);
            return Err(finding.fault);
          }
          if finding.Violates? {
            assert FirstAt(at, e, left, right, finding);
            return Ok(Some(finding.violation));
          }
        }
      }
    }
    return Ok(None);
  }

  // ---- the proportional rule

  lemma ProportionalIsShares(claims: seq<Claim>, estate: Positive)
    ensures WellFormed(claims) ==> ProportionalRule(claims, estate) == Ok(Shares(claims, estate))
    ensures !WellFormed(claims) ==> ProportionalRule(claims, estate).Err?
  {
    CheckedIsExact(claims);
  }

  lemma SharesAt(claims: seq<Claim>, estate: Positive, k: nat)
    requires WellFormed(claims) && k < |claims|
    ensures ShareFor(Shares(claims, estate), claims[k].id) == Ok(Share(claims[k].strength, estate, Total(claims)))
  {
    StrengthIs(claims, k);
  }

  lemma StrengthenedIsWellFormed(claims: seq<Claim>, index: nat, delta: Positive)
    requires WellFormed(claims) && index < |claims|
    ensures WellFormed(Strengthened(claims, index, delta))
  {}

  /** A pair share of proportional shares depends on the two strengths alone. */
  lemma PairShareIsRatio(a: Positive, b: Positive, estate: Positive, total: Positive, l: real, r: real)
    requires l == Share(a, estate, total) && r == Share(b, estate, total)
    ensures l + r > 0.0 && l / (l + r) == a / (a + b)
  {}

  /** Strengthening a claimant never lowers its part of any pair. */
  lemma PopulationIsClear(claims: seq<Claim>, estate: Positive, i: nat, d: nat, j: nat)
    requires WellFormed(claims)
    ensures PopulationAt(ProportionalRule, claims, estate, Shares(claims, estate), i, d, j) == Clear
  {
    if i < |claims| && d < |POPULATION_DELTAS| {
      var delta := POPULATION_DELTAS[d];
      var changed := Strengthened(claims, i, delta);
      StrengthenedIsWellFormed(claims, i, delta);
      ProportionalIsShares(changed, estate);
      if j < |claims| && claims[i].id != claims[j].id {
        SharesAt(claims, estate, i);
        SharesAt(claims, estate, j);
        SharesAt(changed, estate, i);
        SharesAt(changed, estate, j);
        PairIsClear(claims[i].strength, claims[j].strength, delta, estate, Total(claims), Total(changed),
                    claims[i].id, claims[j].id, Shares(claims, estate), Shares(changed, estate));
      }
    }
  }

  lemma PairIsClear(a: Positive, b: Positive, delta: Positive, estate: Positive, total: Positive, newTotal: Positive,
                    left: string, right: string, original: Allocation, perturbed: Allocation)
    requires ShareFor(original, left) == Ok(Share(a, estate, total))
    requires ShareFor(original, right) == Ok(Share(b, estate, total))
    requires ShareFor(perturbed, left) == Ok(Share(a + delta, estate, newTotal))
    requires ShareFor(perturbed, right) == Ok(Share(b, estate, newTotal))
    ensures ComparePairShares(original, perturbed, left, right) == Clear
  {}

  /** The order of two shares is the order of the strengths, or a tie. */
  lemma OrderFollowsStrength(a: Positive, b: Positive, estate: Positive, total: Positive,
                             left: string, right: string, allocation: Allocation)
    requires ShareFor(allocation, left) == Ok(Share(a, estate, total))
    requires ShareFor(allocation, right) == Ok(Share(b, estate, total))
    ensures AllocationOrder(allocation, left, right) in {Ok(Equal), if a < b then Ok(Less) else Ok(Greater)}
  {}

  /** An entrant never flips the order of two claimants; the comparison can only fail, on an entrant that is not
      valid. */
  lemma PriorityIsClear(claims: seq<Claim>, estate: Positive, entrants: seq<Claim>, e: nat, l: nat, r: nat)
    requires WellFormed(claims)
    ensures var finding := PriorityAt(ProportionalRule, claims, estate, Shares(claims, estate), entrants, e, l, r);
            if e < |entrants| && !WellFormed(ClaimsWithEntrant(claims, entrants[e]))
            then finding.Failed? else finding == Clear
  {
    if e < |entrants| {
      var joined := ClaimsWithEntrant(claims, entrants[e]);
      ProportionalIsShares(joined, estate);
      if WellFormed(joined) && l < r < |claims| {
        SharesAt(claims, estate, l);
        SharesAt(claims, estate, r);
        SharesAt(joined, estate, l);
        SharesAt(joined, estate, r);
        OrderFollowsStrength(claims[l].strength, claims[r].strength, estate, Total(claims),
                             claims[l].id, claims[r].id, Shares(claims, estate));
        OrderFollowsStrength(claims[l].strength, claims[r].strength, estate, Total(joined),
                             claims[l].id, claims[r].id, Shares(joined, estate));
      }
    }
  }

  /** On valid claims the proportional rule shows no population paradox and, whatever entrants are tried, no priority
      paradox; the second search fails only on an entrant with a blank or already used id. */
  method CheckProportional(claims: seq<Claim>, estate: Positive, entrants: seq<Claim>)
    returns (population: Result<Option<ParadoxViolation>, Fault>, priority: Result<Option<ParadoxViolation>, Fault>)
    requires WellFormed(claims)
    ensures population == Ok(None)
    ensures priority.Ok? ==> priority == Ok(None)
    ensures priority.Err? <==> exists e | 0 <= e < |entrants| :: !WellFormed(ClaimsWithEntrant(claims, entrants[e]))
  {
    var original := EvaluateProportional(claims, estate);
    ProportionalIsShares(claims, estate);
    population := DetectPopulation(ProportionalRule, claims, estate, original.value);
    forall i: nat, d: nat, j: nat
      ensures PopulationAt(ProportionalRule, claims, estate, original.value, i, d, j) == Clear
    {
      PopulationIsClear(claims, estate, i, d, j);
    }
    priority := DetectPriority(ProportionalRule, claims, estate, original.value, entrants);
    forall e: nat, l: nat, r: nat
      ensures var finding := PriorityAt(ProportionalRule, claims, estate, original.value, entrants, e, l, r);
        if e < |entrants| && !WellFormed(ClaimsWithEntrant(claims, entrants[e]))
        then finding.Failed? else finding == Clear
    {
      PriorityIsClear(claims, estate, entrants, e, l, r);
    }
    if exists e: nat | e < |entrants| :: !WellFormed(ClaimsWithEntrant(claims, entrants[e])) {
      ghost var e: nat :| e < |entrants| && !WellFormed(ClaimsWithEntrant(claims, entrants[e]));
      ghost var at: (nat, nat, nat) -> Finding :=
        (e: nat, l: nat, r: nat) => PriorityAt(ProportionalRule, claims, estate, original.value, entrants, e, l, r);
      assert at(e, 0, 0).Failed?;
    }
  }
}
