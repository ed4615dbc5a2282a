/** Claims, allocations and the proportional rule, in exact real arithmetic. */
module Allocation {
  import opened Bytes
  import opened BinaryParts

  datatype Claim = Claim(id: string, strength: Positive)

  type Allocation = map<string, real>

  datatype Fault =
    | InvalidClaimantId(id: string)
    | DuplicateClaimantId(id: string)
    | MissingClaimant(id: string)
    | InvalidValue(id: string, value: real)
    | UnknownClaimant(id: string)
    | ExceedsEstate(sum: real, estate: real)
    | MissingShare(id: string)

  const EPSILON := 0.000000001

  function Absolute(x: real): real { if x < 0.0 then -x else x }

  // ---- claim lists

  /** The Unicode property White_Space, which is what trimming a Rust string removes. */
  predicate IsWhitespace(c: char) {
    var n := c as int;
    || 9 <= n <= 13 || n in {0x20, 0x85, 0xA0, 0x1680, 0x2028, 0x2029, 0x202F, 0x205F, 0x3000} || 0x2000 <= n <= 0x200A
  }

  predicate Blank(id: string) { forall i | 0 <= i < |id| :: IsWhitespace(id[i]) }

  function Ids(claims: seq<Claim>): set<string> { set k | 0 <= k < |claims| :: claims[k].id }

  /** No blank id and no id twice. */
  ghost predicate WellFormed(claims: seq<Claim>) {
    && (forall k | 0 <= k < |claims| :: !Blank(claims[k].id))
    && (forall j, k | 0 <= j < k < |claims| :: claims[j].id != claims[k].id)
  }

  ghost predicate Repeats(claims: seq<Claim>, k: nat)
    requires k < |claims|
  {
    exists j | 0 <= j < k :: claims[j].id == claims[k].id
  }

  /** What the first offending claim is reported as; a blank id wins over a repeated one. */
  ghost predicate FirstFault(claims: seq<Claim>, k: nat, fault: Fault) {
    && k < |claims| && WellFormed(claims[..k])
    && if Blank(claims[k].id) then fault == InvalidClaimantId(claims[k].id)
       else Repeats(claims, k) && fault == DuplicateClaimantId(claims[k].id)
  }

  /** The verdict of `Claim::validate_all`. */
  function Checked(claims: seq<Claim>): Result<Unit, Fault> {
    if claims == [] then Ok(Unit)
    else
      var earlier, id := Checked(claims[..|claims| - 1]), claims[|claims| - 1].id;
      if earlier.Err? then earlier
      else if Blank(id) then Err(InvalidClaimantId(id))
      else if id in Ids(claims[..|claims| - 1]) then Err(DuplicateClaimantId(id))
      else Ok(Unit)
  }

  /** A list is accepted exactly when it is well formed, and otherwise its first offending claim is reported. */
  lemma {:induction false} CheckedIsExact(claims: seq<Claim>)
    ensures Checked(claims).Ok? <==> WellFormed(claims)
    ensures Checked(claims).Err? ==> exists k: nat :: FirstFault(claims, k, Checked(claims).error)
  {
    if claims != [] {
      var n := |claims| - 1;
      var earlier, id := Checked(claims[..n]), claims[n].id;
      assert claims[..n + 1] == claims;
      CheckedIsExact(claims[..n]);
      WellFormedPrefix(claims, n);
      if earlier.Err? {
        FaultOfPrefix(claims, n, earlier.error);
      } else if Blank(id) || id in Ids(claims[..n]) {
        assert FirstFault(claims, n, Checked(claims).error);
      }
    }
  }

  lemma WellFormedPrefix(claims: seq<Claim>, n: nat)
    requires n < |claims|
    ensures WellFormed(claims[..n + 1])
            <==> WellFormed(claims[..n]) && !Blank(claims[n].id) && claims[n].id !in Ids(claims[..n])
    ensures n + 1 == |claims| ==> claims[..n + 1] == claims
  {}

  lemma FaultOfPrefix(claims: seq<Claim>, n: nat, fault: Fault)
    requires n <= |claims| && exists k: nat :: FirstFault(claims[..n], k, fault)
    ensures exists k: nat :: FirstFault(claims, k, fault)
  {
    var k: nat :| FirstFault(claims[..n], k, fault);
    assert claims[..n][..k] == claims[..k];
    if !Blank(claims[k].id) {
      var j :| 0 <= j < k && claims[..n][j].id == claims[..n][k].id;
      assert claims[j].id == claims[k].id;
    }
    assert FirstFault(claims, k, fault);
  }

  method ValidateAll(claims: seq<Claim>) returns (r: Result<Unit, Fault>)
    ensures r == Checked(claims)
  {
    var seen := {};
    for i := 0 to |claims|
      invariant Checked(claims[..i]) == Ok(Unit) && seen == Ids(claims[..i])
    {
      var claim := claims[i];
      var shorter := claims[..i + 1];
      assert shorter[..i] == claims[..i];
      if Blank(claim.id) {
        FaultStays(claims, i + 1);
        return Err(InvalidClaimantId(claim.id));
      }
      if claim.id in seen {
        FaultStays(claims, i + 1);
        return Err(DuplicateClaimantId(claim.id));
      }
      seen := seen + {claim.id};
      assert Ids(shorter) == Ids(claims[..i]) + {claim.id} by { IdsOfNext(claims, i); }
    }
    assert claims[..|claims|] == claims;
    return Ok(Unit);
  }

  lemma IdsOfNext(claims: seq<Claim>, i: nat)
    requires i < |claims|
    ensures Ids(claims[..i + 1]) == Ids(claims[..i]) + {claims[i].id}
  {}

  lemma {:induction false} FaultStays(claims: seq<Claim>, n: nat)
    requires n <= |claims| && Checked(claims[..n]).Err?
    ensures Checked(claims) == Checked(claims[..n])
    decreases |claims|
  {
    if n == |claims| {
      assert claims[..n] == claims;
    } else {
      var m := |claims| - 1;
      assert claims[..m][..n] == claims[..n];
      FaultStays(claims[..m], n);
    }
  }

  // ---- totals

  function Total(claims: seq<Claim>): (t: real)
    ensures t >= 0.0 && (claims != [] ==> t > 0.0)
  {
    if claims == [] then 0.0 else Total(claims[..|claims| - 1]) + claims[|claims| - 1].strength
  }

  /** The sum of a map's values over some of its keys, in whatever order they are visited. */
  ghost function SumOver(keys: set<string>, m: Allocation): real
    requires keys <= m.Keys
  {
    if keys == {} then 0.0 else var k := Pick(keys); m[k] + SumOver(keys - {k}, m)
  }

  ghost function Pick(keys: set<string>): (k: string)
    requires keys != {}
    ensures k in keys
  {
    var k :| k in keys; k
  }

  lemma {:induction false} SumOverAny(keys: set<string>, m: Allocation, k: string)
    requires keys <= m.Keys && k in keys
    ensures SumOver(keys, m) == m[k] + SumOver(keys - {k}, m)
    decreases |keys|
  {
    var p := Pick(keys);
    if p != k {
      SumOverAny(keys - {p}, m, k);
      SumOverAny(keys - {k}, m, p);
      assert keys - {p} - {k} == keys - {k} - {p};
    }
  }

  lemma {:induction false} SumOverSplit(a: set<string>, b: set<string>, m: Allocation)
    requires a + b <= m.Keys && a !! b
    ensures SumOver(a + b, m) == SumOver(a, m) + SumOver(b, m)
    decreases |b|
  {
    if b == {} {
      assert a + b == a;
    } else {
      var k := Pick(b);
      SumOverAny(a + b, m, k);
      assert a + b - {k} == a + (b - {k});
      SumOverSplit(a, b - {k}, m);
    }
  }

  /** Every claim of the list has a value that depends on its strength. */
  ghost predicate Priced(claims: seq<Claim>, m: Allocation, price: real -> real) {
    forall k | 0 <= k < |claims| :: claims[k].id in m && m[claims[k].id] == price(claims[k].strength)
  }

  ghost predicate AddsAt(price: real -> real, a: real, b: real) { price(a + b) == price(a) + price(b) }

  ghost predicate Additive(price: real -> real) {
    price(0.0) == 0.0 && forall a, b :: AddsAt(price, a, b)
  }

  /** With an additive price, the claims together are worth the price of their total strength. */
  lemma {:induction false} SumOfPrices(claims: seq<Claim>, m: Allocation, price: real -> real)
    requires WellFormed(claims) && Priced(claims, m, price) && Additive(price)
    ensures Ids(claims) <= m.Keys
    ensures SumOver(Ids(claims), m) == price(Total(claims))
  {
    if claims == [] {
      assert Ids(claims) == {};
    } else {
      var n := |claims| - 1;
      var rest, last := claims[..n], claims[n];
      assert claims[..n + 1] == claims;
      IdsOfNext(claims, n);
      WellFormedPrefix(claims, n);
      SumOfPrices(rest, m, price);
      SumOverAny(Ids(claims), m, last.id);
      assert Ids(claims) - {last.id} == Ids(rest);
      assert AddsAt(price, Total(rest), last.strength);
    }
  }

  // ---- the proportional rule

  function StrengthOf(claims: seq<Claim>, id: string): Positive
    requires id in Ids(claims)
  {
    var n := |claims| - 1;
    if claims[n].id == id then claims[n].strength
    else
      assert claims[..n + 1] == claims;
      IdsOfNext(claims, n);
      StrengthOf(claims[..n], id)
  }

  lemma {:induction false} StrengthIs(claims: seq<Claim>, k: nat)
    requires WellFormed(claims) && k < |claims|
    ensures claims[k].id in Ids(claims) && StrengthOf(claims, claims[k].id) == claims[k].strength
    decreases |claims|
  {
    var n := |claims| - 1;
    if k < n {
      assert claims[..n + 1] == claims;
      WellFormedPrefix(claims, n);
      StrengthIs(claims[..n], k);
    }
  }

  /** Each claimant's strength over the total strength, of the estate. */
  function Share(strength: real, estate: real, total: real): real
    requires total != 0.0
  {
    strength * estate / total
  }

  function Shares(claims: seq<Claim>, estate: Positive): Allocation {
    map id | id in Ids(claims) :: Share(StrengthOf(claims, id), estate, Total(claims))
  }

  function ProportionalRule(claims: seq<Claim>, estate: Positive): (r: Result<Allocation, Fault>) {
    match Checked(claims)
    case Err(fault) => Err(fault)
    case Ok(_) => Ok(Shares(claims, estate))
  }

  method ProportionalAllocate(claims: seq<Claim>, estate: Positive) returns (r: Result<Allocation, Fault>)
    ensures r == ProportionalRule(claims, estate)
  {
    var valid := ValidateAll(claims);
    if valid.Err? { return Err(valid.error); }
    var allocation: Allocation := map[];
    if |claims| == 0 {
      assert Ids(claims) == {};
      return Ok(allocation);
    }
    var scale := StrongestOf(claims);
    var scaledTotal := ScaledTotal(claims, scale);
    allocation := InsertShares(claims, estate, scale, scaledTotal, Total(claims));
    CheckedIsExact(claims);
    forall id | id in allocation ensures id in Shares(claims, estate) && allocation[id] == Shares(claims, estate)[id] {
      var k :| 0 <= k < |claims| && claims[k].id == id;
      StrengthIs(claims, k);
    }
    assert allocation == Shares(claims, estate);
    return Ok(allocation);
  }

  method InsertShares(claims: seq<Claim>, estate: Positive, scale: Positive, scaledTotal: Positive,
                      ghost total: Positive)
    returns (allocation: Allocation)
    requires Checked(claims).Ok? && total == scale * scaledTotal
    ensures allocation.Keys == Ids(claims)
    ensures forall k | 0 <= k < |claims| :: claims[k].id in allocation
              && allocation[claims[k].id] == Share(claims[k].strength, estate, total)
  {
    CheckedIsExact(claims);
    allocation := map[];
    for i := 0 to |claims|
      invariant allocation.Keys == Ids(claims[..i])
      invariant forall k | 0 <= k < i :: claims[k].id in allocation
                  && allocation[claims[k].id] == Share(claims[k].strength, estate, total)
    {
      var share := ScaledProportionalShare(claims[i].strength, scale, scaledTotal, estate);
      ScaledShareIsShare(claims[i].strength, scale, scaledTotal, estate, total, share);
      IdsOfNext(claims, i);
      allocation := allocation[claims[i].id := share];
    }
    assert claims[..|claims|] == claims;
  }

  lemma ScaledShareIsShare(strength: Positive, scale: Positive, scaledTotal: Positive, estate: Positive,
                           total: Positive, share: real)
    requires total == scale * scaledTotal && share == ScaledProportionalShare(strength, scale, scaledTotal, estate)
    ensures share == Share(strength, estate, total)
  {
    ShareIsPlainFormula(strength, scale, scaledTotal, estate, share);
  }

  method StrongestOf(claims: seq<Claim>) returns (scale: Positive)
    requires claims != []
    ensures exists k | 0 <= k < |claims| :: scale == claims[k].strength
    ensures forall k | 0 <= k < |claims| :: claims[k].strength <= scale
  {
    var most: real := 0.0;
    for i := 0 to |claims|
      invariant i == 0 ==> most == 0.0
      invariant i > 0 ==> exists k | 0 <= k < i :: most == claims[k].strength
      invariant forall k | 0 <= k < i :: claims[k].strength <= most
    {
      if claims[i].strength > most { most := claims[i].strength; }
    }
    scale := most;
  }

  method ScaledTotal(claims: seq<Claim>, scale: Positive) returns (total: Positive)
    requires exists k | 0 <= k < |claims| :: scale == claims[k].strength
    ensures total >= 1.0 && scale * total == Total(claims)
  {
    var sum := SumOfRatios(claims, scale);
    TotalCoversOne(claims, scale);
    AtLeastOne(scale, sum, Total(claims));
    total := sum;
  }

  /** The compensated sum of the ratios; in exact arithmetic the compensation stays zero. */
  method SumOfRatios(claims: seq<Claim>, scale: Positive) returns (sum: real)
    ensures scale * sum == Total(claims)
  {
    var correction := 0.0;
    sum := 0.0;
    for i := 0 to |claims|
      invariant correction == 0.0
      invariant scale * sum == Total(claims[..i])
    {
      var strength := claims[i].strength;
      var term := strength / scale - correction;
      var next := sum + term;
      correction := (next - sum) - term;
      assert claims[..i + 1][..i] == claims[..i];
      NextScaled(scale, sum, term, strength, next, Total(claims[..i]));
      sum := next;
    }
    assert claims[..|claims|] == claims;
  }

  lemma NextScaled(scale: Positive, sum: real, ratio: real, strength: real, next: real, total: real)
    requires ratio == strength / scale && next == sum + ratio && scale * sum == total
    ensures scale * next == total + strength
  {}

  lemma AtLeastOne(scale: Positive, sum: real, total: real)
    requires scale * sum == total && total >= scale
    ensures sum >= 1.0
  {}

  lemma {:induction false} TotalCoversOne(claims: seq<Claim>, strength: real)
    requires exists k | 0 <= k < |claims| :: strength == claims[k].strength
    ensures Total(claims) >= strength
  {
    var k :| 0 <= k < |claims| && strength == claims[k].strength;
    if k < |claims| - 1 {
      assert claims[..|claims| - 1][k].strength == strength;
      TotalCoversOne(claims[..|claims| - 1], strength);
    }
  }

  // ---- what the rule guarantees

  lemma SharesArePriced(claims: seq<Claim>, estate: Positive)
    requires WellFormed(claims) && claims != []
    ensures Priced(claims, Shares(claims, estate), x => Share(x, estate, Total(claims)))
  {
    forall k | 0 <= k < |claims|
      ensures claims[k].id in Ids(claims) && StrengthOf(claims, claims[k].id) == claims[k].strength
    {
      StrengthIs(claims, k);
    }
  }

  lemma ShareIsAdditive(estate: real, total: real)
    requires total > 0.0
    ensures Additive(x => Share(x, estate, total))
  {}

  /** Conservation: the shares of a list that is not empty add up to the estate. */
  lemma SharesSumToEstate(claims: seq<Claim>, estate: Positive)
    requires WellFormed(claims) && claims != []
    ensures SumOver(Ids(claims), Shares(claims, estate)) == estate
  {
    var total := Total(claims);
    SharesArePriced(claims, estate);
    ShareIsAdditive(estate, total);
    SumOfPrices(claims, Shares(claims, estate), x => Share(x, estate, total));
    ShareOfTotal(total, estate);
  }

  lemma ShareOfTotal(total: Positive, estate: real)
    ensures Share(total, estate, total) == estate
  {}

  function Only(claims: seq<Claim>, keep: set<string>): (r: seq<Claim>)
    ensures forall k | 0 <= k < |r| :: r[k] in claims && r[k].id in keep
    ensures forall k | 0 <= k < |claims| && claims[k].id in keep :: claims[k] in r
  {
    if claims == [] then [] else
      var n := |claims| - 1;
      var rest := Only(claims[..n], keep);
      if claims[n].id in keep then rest + [claims[n]] else rest
  }

  lemma {:induction false} OnlyIsWellFormed(claims: seq<Claim>, keep: set<string>)
    requires WellFormed(claims)
    ensures WellFormed(Only(claims, keep))
    ensures Ids(Only(claims, keep)) == Ids(claims) * keep
  {
    if claims != [] {
      var n := |claims| - 1;
      assert claims[..n + 1] == claims;
      WellFormedPrefix(claims, n);
      IdsOfNext(claims, n);
      OnlyIsWellFormed(claims[..n], keep);
      if claims[n].id in keep {
        AppendedIsWellFormed(Only(claims[..n], keep), claims[n]);
      }
    }
  }

  lemma AppendedIsWellFormed(claims: seq<Claim>, claim: Claim)
    ensures Ids(claims + [claim]) == Ids(claims) + {claim.id}
    ensures WellFormed(claims + [claim]) <==> WellFormed(claims) && !Blank(claim.id) && claim.id !in Ids(claims)
  {
    var all, n := claims + [claim], |claims|;
    assert all[..n] == claims && all[..n + 1] == all;
    IdsOfNext(all, n);
    WellFormedPrefix(all, n);
  }

  /** Whatever the price, what the claims outside `keep` leave over is the price of the kept strength. */
  lemma LeftIsPrice(claims: seq<Claim>, keep: set<string>, m: Allocation, price: real -> real)
    requires WellFormed(claims) && Priced(claims, m, price) && Additive(price) && keep < Ids(claims) && keep != {}
    ensures WellFormed(Only(claims, keep)) && Ids(Only(claims, keep)) == keep && Only(claims, keep) != []
    ensures Ids(claims) <= m.Keys
    ensures SumOver(Ids(claims), m) - SumOver(Ids(claims) - keep, m) == price(Total(Only(claims, keep)))
  {
    var kept := Only(claims, keep);
    OnlyIsWellFormed(claims, keep);
    assert Ids(claims) * keep == keep;
    assert kept != [] by { var id :| id in keep; assert id in Ids(kept); }
    OnlyIsPriced(claims, keep, m, price);
    SumOfPrices(kept, m, price);
    SumOfPrices(claims, m, price);
    SumOverSplit(keep, Ids(claims) - keep, m);
    assert keep + (Ids(claims) - keep) == Ids(claims);
  }

  lemma LeftIsShare(claims: seq<Claim>, estate: Positive, keep: set<string>)
    requires WellFormed(claims) && keep < Ids(claims) && keep != {}
    ensures WellFormed(Only(claims, keep)) && Ids(Only(claims, keep)) == keep && Only(claims, keep) != []
    ensures estate - SumOver(Ids(claims) - keep, Shares(claims, estate))
            == Share(Total(Only(claims, keep)), estate, Total(claims))
  {
    SharesArePriced(claims, estate);
    ShareIsAdditive(estate, Total(claims));
    SharesSumToEstate(claims, estate);
    LeftIsPrice(claims, keep, Shares(claims, estate), x => Share(x, estate, Total(claims)));
  }

  /** Consistency: remove any claimants with their shares, as long as someone stays, and nobody else's share changes. */
  lemma RemovalIsConsistent(claims: seq<Claim>, estate: Positive, keep: set<string>, left: real)
    requires WellFormed(claims) && keep < Ids(claims) && keep != {}
    requires left == estate - SumOver(Ids(claims) - keep, Shares(claims, estate))
    ensures WellFormed(Only(claims, keep)) && Ids(Only(claims, keep)) == keep
    ensures left > 0.0
    ensures forall id | id in keep :: Shares(Only(claims, keep), left)[id] == Shares(claims, estate)[id]
  {
    var kept := Only(claims, keep);
    LeftIsShare(claims, estate, keep);
    ShareIsPositive(Total(kept), estate, Total(claims));
    forall id | id in keep ensures Shares(kept, left)[id] == Shares(claims, estate)[id] {
      var k :| 0 <= k < |kept| && kept[k].id == id;
      var j :| 0 <= j < |claims| && claims[j] == kept[k];
      StrengthIs(kept, k);
      StrengthIs(claims, j);
      ShareOfShare(kept[k].strength, Total(kept), estate, Total(claims), left);
    }
  }

  lemma OnlyIsPriced(claims: seq<Claim>, keep: set<string>, m: Allocation, price: real -> real)
    requires Priced(claims, m, price)
    ensures Priced(Only(claims, keep), m, price)
  {}

  lemma ShareOfShare(strength: Positive, part: Positive, estate: Positive, total: Positive, left: Positive)
    requires left == Share(part, estate, total)
    ensures Share(strength, left, part) == Share(strength, estate, total)
  {}

  lemma ShareIsPositive(strength: Positive, estate: Positive, total: Positive)
    ensures Share(strength, estate, total) > 0.0
  {}

  // ---- validation of an allocation

  ghost predicate Covers(allocation: Allocation, claims: seq<Claim>) {
    allocation.Keys == Ids(claims) && forall id | id in allocation :: allocation[id] >= 0.0
  }

  // Ids are visited in the order of an ordered map: by bytes in UTF-8, which is the order by characters.

  predicate Precedes(a: string, b: string) {
    b != [] && (a == [] || a[0] < b[0] || (a[0] == b[0] && Precedes(a[1..], b[1..])))
  }

  lemma {:induction false} OneOrderOrTheOther(a: string, b: string)
    ensures a == b || Precedes(a, b) || Precedes(b, a)
    ensures !(Precedes(a, b) && Precedes(b, a))
  {
    if a != [] && b != [] {
      OneOrderOrTheOther(a[1..], b[1..]);
      assert a == [a[0]] + a[1..] && b == [b[0]] + b[1..];
    }
  }

  lemma {:induction false} PrecedesTrans(a: string, b: string, c: string)
    requires Precedes(a, b) && Precedes(b, c)
    ensures Precedes(a, c)
  {
    if a != [] && a[0] == b[0] == c[0] {
      PrecedesTrans(a[1..], b[1..], c[1..]);
    }
  }

  ghost predicate IsLeast(id: string, ids: set<string>) {
    id in ids && forall other :: other in ids && other != id ==> Precedes(id, other)
  }

  method LeastOf(ids: set<string>) returns (least: string)
    requires ids != {}
    ensures IsLeast(least, ids)
  {
    least :| least in ids;
    var rest := ids - {least};
    while rest != {}
      invariant rest <= ids && least in ids && least !in rest
      invariant IsLeast(least, ids - rest)
      decreases |rest|
    {
      var id :| id in rest;
      OneOrderOrTheOther(id, least);
      if Precedes(id, least) {
        forall other | other in ids - rest && other != least ensures Precedes(id, other) {
          PrecedesTrans(id, least, other);
        }
        least := id;
      }
      rest := rest - {id};
    }
    assert ids - rest == ids;
  }

  function Missing(allocation: Allocation, claims: seq<Claim>): set<string> { Ids(claims) - allocation.Keys }

  /** The entries that are negative or belong to nobody. */
  function Faulty(allocation: Allocation, claims: seq<Claim>): set<string> {
    set id | id in allocation.Keys && (allocation[id] < 0.0 || id !in Ids(claims))
  }

  /** `Allocation::validate`: every claimant has a share, nobody else has one, and none is negative. The first missing
      claimant is reported, or else the first faulty entry; a negative value wins over an unknown claimant. */
  method Validate(allocation: Allocation, claims: seq<Claim>) returns (r: Result<Unit, Fault>)
    ensures r.Ok? <==> Covers(allocation, claims)
    ensures r.Err? ==> match r.error
                       case MissingClaimant(id) => IsLeast(id, Missing(allocation, claims))
                       case InvalidValue(id, value) =>
                         && Missing(allocation, claims) == {} && IsLeast(id, Faulty(allocation, claims))
                         && value == allocation[id] < 0.0
                       case UnknownClaimant(id) =>
                         && Missing(allocation, claims) == {} && IsLeast(id, Faulty(allocation, claims))
                         && id !in Ids(claims) && allocation[id] >= 0.0
                       case _ => false
  {
    var expected := Ids(claims);
    var rest := expected;
    while rest != {}
      invariant rest <= expected && expected - rest <= allocation.Keys
      decreases |rest|
    {
      var id := LeastOf(rest);
      if id !in allocation { return Err(MissingClaimant(id)); }
      rest := rest - {id};
    }
    assert Missing(allocation, claims) == {};
    var keys := allocation.Keys;
    while keys != {}
      invariant keys <= allocation.Keys && Faulty(allocation, claims) <= keys
      decreases |keys|
    {
      var id := LeastOf(keys);
      if allocation[id] < 0.0 { return Err(InvalidValue(id, allocation[id])); }
      if id !in expected { return Err(UnknownClaimant(id)); }
      keys := keys - {id};
    }
    assert forall id :: id in allocation.Keys ==> id !in Faulty(allocation, claims);
    return Ok(Unit);
  }

  function Tolerance(sum: real, estate: real): real {
    EPSILON + EPSILON * Absolute(sum) + EPSILON * Absolute(estate)
  }

  ghost predicate Feasible(allocation: Allocation, estate: Positive) {
    var sum := SumOver(allocation.Keys, allocation);
    sum - estate <= Tolerance(sum, estate)
  }

  method ValidateFeasible(allocation: Allocation, estate: Positive) returns (r: Result<Unit, Fault>)
    ensures var sum := SumOver(allocation.Keys, allocation);
            r == if sum - estate <= Tolerance(sum, estate) then Ok(Unit) else Err(ExceedsEstate(sum, estate))
  {
    var sum, keys := 0.0, allocation.Keys;
    while keys != {}
      invariant keys <= allocation.Keys
      invariant sum + SumOver(keys, allocation) == SumOver(allocation.Keys, allocation)
      decreases |keys|
    {
      var id :| id in keys;
      SumOverAny(keys, allocation, id);
      sum := sum + allocation[id];
      keys := keys - {id};
    }
    if sum - estate <= Tolerance(sum, estate) { return Ok(Unit); }
    return Err(ExceedsEstate(sum, estate));
  }

  /** A rule's own computation, and whether its results must fit the estate. */
  datatype Rule = Rule(compute: (seq<Claim>, Positive) -> Result<Allocation, Fault>, feasible: bool)

  ghost predicate Accepts(rule: Rule, allocation: Allocation, claims: seq<Claim>, estate: Positive) {
    Covers(allocation, claims) && (rule.feasible ==> Feasible(allocation, estate))
  }

  const PROPORTIONAL := Rule(ProportionalRule, true)

  /** `evaluate_rule`: what comes back is the rule's own result, when the claims and that result are valid. */
  method EvaluateRule(rule: Rule, claims: seq<Claim>, estate: Positive) returns (r: Result<Allocation, Fault>)
    ensures !WellFormed(claims) ==> r.Err? && Checked(claims) == Err(r.error)
    ensures WellFormed(claims) ==> rule.compute(claims, estate).Err? ==> r == rule.compute(claims, estate)
    ensures r.Ok? ==> WellFormed(claims) && r == rule.compute(claims, estate) && Accepts(rule, r.value, claims, estate)
    ensures WellFormed(claims) && rule.compute(claims, estate).Ok? && r.Err?
            ==> !Accepts(rule, rule.compute(claims, estate).value, claims, estate)
  {
    CheckedIsExact(claims);
    var valid := ValidateAll(claims);
    if valid.Err? { return Err(valid.error); }
    var computed := rule.compute(claims, estate);
    if computed.Err? { return Err(computed.error); }
    var covered := Validate(computed.value, claims);
    if covered.Err? { return Err(covered.error); }
    if rule.feasible {
      var fits := ValidateFeasible(computed.value, estate);
      if fits.Err? { return Err(fits.error); }
    }
    return Ok(computed.value);
  }

  /** The checks behind the proportional rule never fail. */
  method EvaluateProportional(claims: seq<Claim>, estate: Positive) returns (r: Result<Allocation, Fault>)
    ensures r == ProportionalRule(claims, estate)
    ensures r.Ok? <==> WellFormed(claims)
  {
    CheckedIsExact(claims);
    if Checked(claims).Ok? { ProportionalIsValid(claims, estate); }
    r := EvaluateRule(PROPORTIONAL, claims, estate);
  }

  lemma ProportionalIsValid(claims: seq<Claim>, estate: Positive)
    requires WellFormed(claims)
    ensures forall id | id in Ids(claims) :: Shares(claims, estate)[id] > 0.0
    ensures SumOver(Ids(claims), Shares(claims, estate)) == if claims == [] then 0.0 else estate
    ensures Covers(Shares(claims, estate), claims) && Feasible(Shares(claims, estate), estate)
  {
    if claims == [] {
      assert Ids(claims) == {};
    } else {
      SharesSumToEstate(claims, estate);
      forall id | id in Ids(claims) ensures Shares(claims, estate)[id] > 0.0 {
        ShareIsPositive(StrengthOf(claims, id), estate, Total(claims));
      }
    }
  }
}
