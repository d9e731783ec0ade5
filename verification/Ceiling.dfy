/** The validator ceiling for a budget, its inverse, and how the two fit together. */
module Ceiling {
  import opened GoInt
  import opened Outcomes

  const SEARCH_MAX: int := 100_000

  datatype Budget = Budget(linkBitsPerSec: int, roundSeconds: real, peers: int)
  {
    /** The bytes the link carries in one round, over exact reals. */
    function Bytes(): int {
      TruncReal(linkBitsPerSec as real / 8.0 * roundSeconds)
    }

    /** The conversion of the byte budget to int64 is defined. */
    predicate Representable() {
      IsInt64(linkBitsPerSec) && IsInt64(peers) && IsInt64(Bytes())
    }
  }

  datatype Ceiling = Ceiling(budget: Budget, maxValidators: int, bytesAtMax: int, budgetBytes: int,
                             utilization: real, limitedBySearch: bool)

  /** A product of two int64 values, as it is divided by: it wraps. */
  function Product64(x: int, peers: int): int {
    Wrap64(x * peers)
  }

  function DeriveCeiling(votePerValidator: int, b: Budget): Ceiling {
    var budgetBytes := b.Bytes();
    var perValidator := Product64(votePerValidator, b.peers);
    if perValidator <= 0 then Ceiling(b, 0, 0, budgetBytes, 0.0, false)
    else
      var quotient := TruncDiv(budgetBytes, perValidator);
      var limited := quotient > SEARCH_MAX;
      var maxN := if limited then SEARCH_MAX else if quotient < 0 then 0 else quotient;
      var bytesAtMax := Wrap64(maxN * perValidator);
      var utilization := if budgetBytes > 0 then bytesAtMax as real / budgetBytes as real else 0.0;
      Ceiling(b, maxN, bytesAtMax, budgetBytes, utilization, limited)
  }

  datatype Target = Target(name: string, validators: int)

  datatype Requirement = Requirement(target: Target, budgetBytes: int, maxCostPerRound: int)

  /** Division by a product that has wrapped to zero panics. */
  function Require(t: Target, b: Budget): Outcome<Requirement> {
    if t.validators > 0 && b.peers > 0 then
      var divisor := Product64(t.validators, b.peers);
      if divisor == 0 then Panicked
      else Returned(Requirement(t, b.Bytes(), Wrap64(TruncDiv(b.Bytes(), divisor))))
    else Returned(Requirement(t, b.Bytes(), 0))
  }

  /** The cost a target of `n` validators leaves each of them. */
  function MaxCost(n: int, b: Budget): int {
    match Require(Target("", n), b)
    case Panicked => 0
    case Returned(r) => r.maxCostPerRound
  }

  predicate Panics(n: int, peers: int) {
    n > 0 && peers > 0 && Product64(n, peers) == 0
  }

  /** The name of a target plays no part. */
  lemma RequireIgnoresName(t: Target, b: Budget)
    ensures Require(t, b) == if Panics(t.validators, b.peers) then Panicked
                             else Returned(Requirement(t, b.Bytes(), MaxCost(t.validators, b)))
  {}

  function MaxValidators(cost: int, b: Budget): int {
    DeriveCeiling(cost, b).maxValidators
  }

  // ---------- what each division decides ----------

  /** The byte budget holds the whole bytes of what the link carries in a round. */
  lemma BytesOfLink(b: Budget)
    ensures var bits := b.linkBitsPerSec as real * b.roundSeconds;
            if bits >= 0.0 then (8 * b.Bytes()) as real <= bits < (8 * (b.Bytes() + 1)) as real
            else (8 * (b.Bytes() - 1)) as real < bits <= (8 * b.Bytes()) as real
  {
    Eighths(b.linkBitsPerSec as real, b.roundSeconds);
    TruncRealExact(b.linkBitsPerSec as real / 8.0 * b.roundSeconds, b.Bytes());
  }

  lemma Eighths(x: real, y: real)
    ensures 8.0 * (x / 8.0 * y) == x * y
  {}

  /** Some bytes are within the budget exactly when their bits are carried. */
  lemma BitsCarried(bytes: int, b: Budget)
    requires bytes >= 1
    ensures bytes <= b.Bytes() <==> (8 * bytes) as real <= b.linkBitsPerSec as real * b.roundSeconds
    ensures bytes <= -b.Bytes() <==> (8 * bytes) as real <= -(b.linkBitsPerSec as real * b.roundSeconds)
  {
    BytesOfLink(b);
  }

  /** The ceiling admits `n` validators exactly when the search covers them and the
      link carries their traffic, priced at the wrapped product, within a round. */
  lemma CeilingAdmits(cost: int, b: Budget, n: int)
    requires b.Representable() && n >= 1
    ensures n <= MaxValidators(cost, b)
       <==> && n <= 100_000 && 0 < Wrap64(cost * b.peers)
            && (8 * (n * Wrap64(cost * b.peers))) as real <= b.linkBitsPerSec as real * b.roundSeconds
  {
    AdmitsBytes(cost, b, n);
    if 0 < Product64(cost, b.peers) {
      MulLe(1, n, Product64(cost, b.peers));
      BitsCarried(n * Product64(cost, b.peers), b);
    }
  }

  /** The requirement panics exactly when the product of set size and peers wraps to
      zero. It allows a cost exactly when the link carries that many copies of the
      product within a round, or owes that many of a negative one; the single
      quotient that overflows int64 allows nothing. */
  lemma RequirementAllows(n: int, b: Budget, cost: int)
    requires b.Representable() && n >= 1 && cost >= 1
    ensures Require(Target("", n), b).Panicked? <==> b.peers >= 1 && Wrap64(n * b.peers) == 0
    ensures var divisor, bits := Wrap64(n * b.peers), b.linkBitsPerSec as real * b.roundSeconds;
            cost <= MaxCost(n, b)
            <==> b.peers >= 1 && if divisor > 0 then (8 * (cost * divisor)) as real <= bits
                 else divisor < 0 && (8 * (cost * -divisor)) as real <= -bits
                      && !(divisor == -1 && b.Bytes() == -TWO_63)
  {
    var divisor := Product64(n, b.peers);
    AllowsBytes(n, b, cost);
    if divisor != 0 {
      MulLe(1, cost, Abs(divisor));
      BitsCarried(cost * Abs(divisor), b);
    }
  }

  /** The requirement is the truncated quotient of the budget by the wrapped product,
      and nothing without a target or peers. */
  lemma RequirementExact(n: int, b: Budget)
    requires b.Representable()
    ensures n <= 0 || b.peers <= 0 ==> Require(Target("", n), b).Returned? && MaxCost(n, b) == 0
    ensures var divisor := Wrap64(n * b.peers);
            var left := b.Bytes() - MaxCost(n, b) * divisor;
            n >= 1 && b.peers >= 1 && divisor != 0 && !(divisor == -1 && b.Bytes() == -TWO_63) ==>
              if b.Bytes() >= 0 then 0 <= left < Abs(divisor) else -Abs(divisor) < left <= 0
  {
    var divisor := Product64(n, b.peers);
    if n >= 1 && b.peers >= 1 && divisor != 0 && !(divisor == -1 && b.Bytes() == -TWO_63) {
      QuotientFits(b.Bytes(), divisor);
      TruncDivExact(b.Bytes(), divisor, MaxCost(n, b));
    }
  }

  lemma QuotientFits(a: int, d: int)
    requires IsInt64(a) && d != 0 && !(d == -1 && a == -TWO_63)
    ensures IsInt64(TruncDiv(a, d))
  {
    if d >= 1 {
      QuotientIsSmall(a, d);
    } else {
      FlipDivisor(a, d);
      SmallQuotient(Abs(a), -d);
    }
  }

  /** In bytes: the ceiling admits `n` validators exactly when their traffic fits. */
  lemma AdmitsBytes(cost: int, b: Budget, n: int)
    requires b.Representable() && n >= 1
    ensures n <= MaxValidators(cost, b)
       <==> n <= SEARCH_MAX && 0 < Product64(cost, b.peers) && n * Product64(cost, b.peers) <= b.Bytes()
  {
    var per := Product64(cost, b.peers);
    if per > 0 {
      TruncDivAtLeast(b.Bytes(), per, n);
    }
  }

  /** `cost` copies of a divisor fit a dividend, for a divisor of either sign; the
      one quotient that overflows int64 comes out negative. */
  predicate DividesInto(cost: int, divisor: int, budget: int) {
    || (divisor > 0 && cost * divisor <= budget)
    || (divisor < 0 && cost * -divisor <= -budget && !(divisor == -1 && budget == -TWO_63))
  }

  /** In bytes: the requirement allows a cost exactly when that many copies of the
      wrapped product fit the budget. */
  lemma AllowsBytes(n: int, b: Budget, cost: int)
    requires b.Representable() && n >= 1 && cost >= 1
    ensures Require(Target("", n), b).Panicked? <==> Panics(n, b.peers)
    ensures cost <= MaxCost(n, b) <==> b.peers >= 1 && DividesInto(cost, Product64(n, b.peers), b.Bytes())
  {
    var divisor := Product64(n, b.peers);
    if divisor > 0 {
      QuotientIsSmall(b.Bytes(), divisor);
      TruncDivAtLeast(b.Bytes(), divisor, cost);
    } else if divisor < 0 {
      NegativeQuotient(b.Bytes(), divisor, cost);
    }
  }

  lemma QuotientIsSmall(a: int, d: int)
    requires IsInt64(a) && d >= 1
    ensures IsInt64(TruncDiv(a, d))
  {}

  lemma NegativeQuotient(a: int, d: int, q: int)
    requires IsInt64(a) && d < 0 && q >= 1
    ensures q <= Wrap64(TruncDiv(a, d)) <==> DividesInto(q, d, a)
  {
    MulLe(1, q, -d);
    FlipDivisor(a, d);
    if a < 0 {
      TruncDivAtLeast(-a, -d, q);
      SmallQuotient(-a, -d);
    } else {
      SmallQuotient(a, -d);
    }
  }

  lemma FlipDivisor(a: int, d: int)
    requires d < 0
    ensures TruncDiv(a, d) == if a >= 0 then -(a / -d) else (-a) / -d
  {}

  lemma SmallQuotient(a: nat, d: int)
    requires d >= 1
    ensures 0 <= a / d <= a && (a > 0 && d > 1 ==> a / d < a)
  {
    var q := a / d;
    assert a == d * q + a % d;
    if q >= 1 {
      MulLe(1, d, q);
      if d > 1 {
        MulLe(2, d, q);
      }
    }
  }

  // ---------- how the two divisions fit together ----------

  /** Budgets the program can be given: its parsers admit positive links and rounds only. */
  predicate NonNegative(b: Budget, peers: int) {
    b.Representable() && b.Bytes() >= 0 && b.peers == peers
  }

  /** The least non-negative int64 budget that holds `x` copies of a product, and
      2^63 when none does. */
  function Least(x: int, product: int): int {
    if product > 0 && x * product < TWO_63 then x * product else TWO_63
  }

  /** From which budget on the ceiling at `cost` admits `n`; none is enough beyond the search. */
  function CountThreshold(cost: int, n: int, peers: int): int {
    if n <= SEARCH_MAX then Least(n, Product64(cost, peers)) else TWO_63
  }

  /** From which budget on the requirement for `n` allows `cost`. */
  function CostThreshold(cost: int, n: int, peers: int): int {
    if peers >= 1 then Least(cost, Product64(n, peers)) else TWO_63
  }

  lemma ThresholdsDecide(cost: int, n: int, b: Budget)
    requires NonNegative(b, b.peers) && cost >= 1 && n >= 1
    ensures n <= MaxValidators(cost, b) <==> CountThreshold(cost, n, b.peers) <= b.Bytes()
    ensures cost <= MaxCost(n, b) <==> CostThreshold(cost, n, b.peers) <= b.Bytes()
  {
    AdmitsBytes(cost, b, n);
    AllowsBytes(n, b, cost);
    if Product64(n, b.peers) < 0 {
      MulLe(1, cost, -Product64(n, b.peers));
    }
  }

  /** A cost meets the requirement for `n` validators exactly when the ceiling at
      that cost admits `n`. */
  ghost predicate Adjoint(cost: int, n: int, b: Budget) {
    && Require(Target("", n), b).Returned?
    && (cost <= MaxCost(n, b) <==> n <= MaxValidators(cost, b))
  }

  /** The requirement divides by something, and both divisions turn at one budget. */
  predicate Meet(cost: int, n: int, peers: int) {
    !Panics(n, peers) && CountThreshold(cost, n, peers) == CostThreshold(cost, n, peers)
  }

  /** A budget of any size, as a link for eight seconds. */
  function BudgetOf(bytes: int, peers: int): (b: Budget)
    ensures b.Bytes() == bytes && b.peers == peers
    ensures IsInt64(bytes) && IsInt64(peers) ==> b.Representable()
  {
    Budget(bytes, 8.0, peers)
  }

  /** The two floor divisions are adjoint on every budget exactly when they meet. */
  lemma GaloisIff(cost: int, n: int, peers: int)
    requires cost >= 1 && n >= 1 && IsInt64(peers)
    ensures (forall b: Budget :: NonNegative(b, peers) ==> Adjoint(cost, n, b)) <==> Meet(cost, n, peers)
  {
    var count, price := CountThreshold(cost, n, peers), CostThreshold(cost, n, peers);
    forall b: Budget | NonNegative(b, peers)
      ensures Adjoint(cost, n, b) <==> !Panics(n, peers) && (count <= b.Bytes() <==> price <= b.Bytes())
    {
      ThresholdsDecide(cost, n, b);
      AllowsBytes(n, b, cost);
    }
    ThresholdsPositive(cost, n, peers);
    if !Meet(cost, n, peers) {
      var turning := if Panics(n, peers) then 0 else if count < price then count else price;
      assert NonNegative(BudgetOf(turning, peers), peers);
    }
  }

  lemma ThresholdsPositive(cost: int, n: int, peers: int)
    requires cost >= 1 && n >= 1
    ensures 1 <= CountThreshold(cost, n, peers) <= TWO_63 && 1 <= CostThreshold(cost, n, peers) <= TWO_63
  {
    if Product64(cost, peers) > 0 {
      MulLe(1, n, Product64(cost, peers));
    }
    if Product64(n, peers) > 0 {
      MulLe(1, cost, Product64(n, peers));
    }
  }

  /** Products that fit int64 meet, for every set the search covers. */
  lemma FittingProductsMeet(cost: int, n: int, peers: int)
    requires cost >= 1 && 1 <= n <= SEARCH_MAX && IsInt64(cost * peers) && IsInt64(n * peers)
    ensures Meet(cost, n, peers)
  {
    Commute(n, cost, peers);
    SignOfProduct(cost, peers);
    SignOfProduct(n, peers);
  }

  lemma Commute(n: int, cost: int, peers: int)
    ensures n * (cost * peers) == cost * (n * peers)
  {}

  lemma SignOfProduct(x: int, peers: int)
    requires x >= 1
    ensures x * peers > 0 <==> peers >= 1
    ensures x * peers == 0 <==> peers == 0
  {}

  // ---------- closure ----------

  /** The requirement returns, and requiring what its ceiling admits asks for the
      same cost. */
  predicate RequireCloses(n: int, b: Budget) {
    var cost := MaxCost(n, b);
    && Require(Target("", n), b).Returned?
    && (cost >= 1 ==> n <= MaxValidators(cost, b) && MaxCost(MaxValidators(cost, b), b) == cost)
  }

  /** The ceiling at the cost that a ceiling's set requires is that ceiling. */
  predicate CeilingCloses(cost: int, b: Budget) {
    var n := MaxValidators(cost, b);
    n >= 1 ==> cost <= MaxCost(n, b) && MaxValidators(MaxCost(n, b), b) == n
  }

  /** While both products fit int64 the divisions are adjoint on every budget,
      negative ones included. */
  lemma GaloisConnection(cost: int, n: int, b: Budget)
    requires b.Representable() && cost >= 1 && 1 <= n <= SEARCH_MAX
    requires IsInt64(cost * b.peers) && IsInt64(n * b.peers)
    ensures Adjoint(cost, n, b)
  {
    AdmitsBytes(cost, b, n);
    AllowsBytes(n, b, cost);
    Commute(n, cost, b.peers);
    SignOfProduct(cost, b.peers);
    SignOfProduct(n, b.peers);
  }

  /** Fewer of either factor still fit, and their products with the peers are in range. */
  lemma SmallerSetFits(n: int, m: int, peers: int, cost: int, budget: int)
    requires 1 <= n <= m && peers >= 1 && cost >= 1 && cost * (m * peers) <= budget
    ensures cost * (n * peers) <= budget && 1 <= m * peers <= budget && 1 <= cost * peers <= budget
  {}

  /** A positive required cost has its product with the peers in range. */
  lemma RequiredCostFits(n: int, b: Budget)
    requires NonNegative(b, b.peers) && n >= 1 && IsInt64(n * b.peers) && MaxCost(n, b) >= 1
    ensures b.peers >= 1 && IsInt64(MaxCost(n, b) * b.peers)
  {
    var cost := MaxCost(n, b);
    AllowsBytes(n, b, cost);
    SignOfProduct(n, b.peers);
    SmallerSetFits(1, n, b.peers, cost, b.Bytes());
  }

  /** A positive admitted set has its product with the peers in range. */
  lemma AdmittedSetFits(cost: int, b: Budget)
    requires NonNegative(b, b.peers) && cost >= 1 && IsInt64(cost * b.peers) && MaxValidators(cost, b) >= 1
    ensures b.peers >= 1 && MaxValidators(cost, b) <= SEARCH_MAX && IsInt64(MaxValidators(cost, b) * b.peers)
  {
    var m := MaxValidators(cost, b);
    AdmitsBytes(cost, b, m);
    SignOfProduct(cost, b.peers);
    Commute(m, cost, b.peers);
    SmallerSetFits(1, m, b.peers, cost, b.Bytes());
  }

  lemma RequirementFalls(n: int, m: int, b: Budget)
    requires NonNegative(b, b.peers) && 1 <= n <= m && IsInt64(n * b.peers) && IsInt64(m * b.peers)
    requires MaxCost(m, b) >= 1
    ensures MaxCost(m, b) <= MaxCost(n, b)
  {
    var cost := MaxCost(m, b);
    AllowsBytes(m, b, cost);
    SignOfProduct(m, b.peers);
    SmallerSetFits(n, m, b.peers, cost, b.Bytes());
    SignOfProduct(n, b.peers);
    AllowsBytes(n, b, cost);
  }

  lemma CeilingFalls(cheap: int, dear: int, b: Budget)
    requires NonNegative(b, b.peers) && 1 <= cheap <= dear && IsInt64(cheap * b.peers) && IsInt64(dear * b.peers)
    requires MaxValidators(dear, b) >= 1
    ensures MaxValidators(dear, b) <= MaxValidators(cheap, b)
  {
    var n := MaxValidators(dear, b);
    AdmitsBytes(dear, b, n);
    SignOfProduct(dear, b.peers);
    SmallerSetFits(cheap, dear, b.peers, n, b.Bytes());
    SignOfProduct(cheap, b.peers);
    AdmitsBytes(cheap, b, n);
  }

  lemma RequirementClosesWhenFitting(n: int, b: Budget)
    requires NonNegative(b, b.peers) && 1 <= n <= SEARCH_MAX && IsInt64(n * b.peers)
    ensures RequireCloses(n, b)
  {
    var cost := MaxCost(n, b);
    if cost >= 1 {
      RequiredCostFits(n, b);
      GaloisConnection(cost, n, b);
      AdmittedSetFits(cost, b);
      var m := MaxValidators(cost, b);
      GaloisConnection(cost, m, b);
      RequirementFalls(n, m, b);
    }
  }

  lemma CeilingClosesWhenFitting(cost: int, b: Budget)
    requires NonNegative(b, b.peers) && cost >= 1 && IsInt64(cost * b.peers)
    ensures CeilingCloses(cost, b)
  {
    var n := MaxValidators(cost, b);
    if n >= 1 {
      AdmittedSetFits(cost, b);
      GaloisConnection(cost, n, b);
      RequiredCostFits(n, b);
      var allowed := MaxCost(n, b);
      GaloisConnection(allowed, n, b);
      CeilingFalls(cost, allowed, b);
    }
  }

  /** The requirement closes on every budget exactly when the search covers the set
      and its product with the peers fits int64, or when it lets no cost through
      without dividing by zero. That the search may cut the ceiling short never
      disturbs it. */
  lemma RequireClosesIff(n: int, peers: int)
    requires n >= 1 && IsInt64(peers)
    ensures (forall b: Budget :: NonNegative(b, peers) ==> RequireCloses(n, b))
       <==> (n <= SEARCH_MAX && IsInt64(n * peers)) || peers <= 0 || Product64(n, peers) < 0
  {
    var divisor := Product64(n, peers);
    SignOfProduct(n, peers);
    if (n <= SEARCH_MAX && IsInt64(n * peers)) || peers <= 0 || divisor < 0 {
      forall b: Budget | NonNegative(b, peers)
        ensures RequireCloses(n, b)
      {
        AllowsBytes(n, b, 1);
        if n <= SEARCH_MAX && IsInt64(n * peers) {
          RequirementClosesWhenFitting(n, b);
        }
      }
    } else {
      var b := BudgetOf(divisor, peers);
      AllowsBytes(n, b, 1);
      if divisor > 0 {
        OnceAtItsOwnSize(n, b);
        AdmitsBytes(1, b, n);
      }
      assert NonNegative(b, peers) && !RequireCloses(n, b);
    }
  }

  /** A budget of exactly one product allows a cost of one. */
  lemma OnceAtItsOwnSize(n: int, b: Budget)
    requires NonNegative(b, b.peers) && n >= 1 && b.peers >= 1 && Product64(n, b.peers) == b.Bytes() >= 1
    ensures MaxCost(n, b) == 1
  {
    AllowsBytes(n, b, 1);
    AllowsBytes(n, b, 2);
  }

  /** The ceiling closes on every budget exactly when the product of cost and peers
      fits int64, or wraps to a value the early return rejects. */
  lemma CeilingClosesIff(cost: int, peers: int)
    requires cost >= 1 && IsInt64(peers)
    ensures (forall b: Budget :: NonNegative(b, peers) ==> CeilingCloses(cost, b))
       <==> IsInt64(cost * peers) || Product64(cost, peers) <= 0
  {
    var per := Product64(cost, peers);
    if IsInt64(cost * peers) || per <= 0 {
      forall b: Budget | NonNegative(b, peers)
        ensures CeilingCloses(cost, b)
      {
        if IsInt64(cost * peers) {
          CeilingClosesWhenFitting(cost, b);
        }
      }
    } else {
      var b := BudgetOf(per, peers);
      AdmitsBytes(cost, b, 1);
      AdmitsBytes(cost, b, 2);
      AllowsBytes(1, b, cost);
      SignOfProduct(cost, peers);
      assert NonNegative(b, peers) && !CeilingCloses(cost, b);
    }
  }

  // ---------- the reported fields ----------

  /** The reported traffic is exact, never exceeds a non-negative budget, and one
      more validator would not fit unless the search stopped first; the search is
      blamed exactly when the true quotient is beyond it. Otherwise nothing is
      admitted and nothing is reported. */
  lemma CeilingIsMaximal(cost: int, b: Budget)
    requires b.Representable()
    ensures var c, per := DeriveCeiling(cost, b), Wrap64(cost * b.peers);
            && c.budget == b && c.budgetBytes == b.Bytes()
            && (per > 0 && b.Bytes() >= 0 ==>
                  && 0 <= c.bytesAtMax == c.maxValidators * per <= b.Bytes()
                  && (c.limitedBySearch <==> 100_001 * per <= b.Bytes())
                  && (c.limitedBySearch ==> c.maxValidators == 100_000)
                  && (!c.limitedBySearch ==> b.Bytes() < (c.maxValidators + 1) * per)
                  && c.utilization * b.Bytes() as real == c.bytesAtMax as real
                  && 0.0 <= c.utilization <= 1.0)
            && (per <= 0 || b.Bytes() <= 0 ==>
                  c.maxValidators == c.bytesAtMax == 0 && !c.limitedBySearch && c.utilization == 0.0)
    ensures var c, bits := DeriveCeiling(cost, b), b.linkBitsPerSec as real * b.roundSeconds;
            bits >= 0.0 ==> (8 * c.budgetBytes) as real <= bits < (8 * (c.budgetBytes + 1)) as real
  {
    var per := Product64(cost, b.peers);
    BytesOfLink(b);
    if per > 0 && b.Bytes() >= 0 {
      LargestCount(cost, b);
      Utilization(cost, b);
    } else if per > 0 {
      TruncDivAtLeast(b.Bytes(), per, 1);
    }
  }

  lemma LargestCount(cost: int, b: Budget)
    requires b.Representable() && Product64(cost, b.peers) > 0 && b.Bytes() >= 0
    ensures var c, per := DeriveCeiling(cost, b), Product64(cost, b.peers);
            && 0 <= c.bytesAtMax == c.maxValidators * per <= b.Bytes()
            && (c.limitedBySearch <==> (SEARCH_MAX + 1) * per <= b.Bytes())
            && (c.limitedBySearch ==> c.maxValidators == SEARCH_MAX)
            && (!c.limitedBySearch ==> b.Bytes() < (c.maxValidators + 1) * per)
            && (b.Bytes() == 0 ==> c.maxValidators == 0)
  {
    var c, per := DeriveCeiling(cost, b), Product64(cost, b.peers);
    TruncDivAtLeast(b.Bytes(), per, SEARCH_MAX + 1);
    if c.maxValidators >= 1 {
      TruncDivAtLeast(b.Bytes(), per, c.maxValidators);
    }
    MulLe(0, c.maxValidators, per);
    TruncDivAtLeast(b.Bytes(), per, c.maxValidators + 1);
  }

  lemma Utilization(cost: int, b: Budget)
    requires b.Representable() && Product64(cost, b.peers) > 0 && b.Bytes() >= 0
    ensures var c := DeriveCeiling(cost, b);
            && c.utilization * b.Bytes() as real == c.bytesAtMax as real
            && 0.0 <= c.utilization <= 1.0
            && (b.Bytes() == 0 ==> c.utilization == 0.0)
  {
    LargestCount(cost, b);
    if b.Bytes() > 0 {
      UnitRatio(DeriveCeiling(cost, b).bytesAtMax, b.Bytes());
    }
  }

  lemma UnitRatio(part: nat, whole: nat)
    requires part <= whole && whole > 0
    ensures 0.0 <= part as real / whole as real <= 1.0
    ensures part as real / whole as real * whole as real == part as real
  {}

  // ---------- int64 overflow ----------

  /** The ceiling agrees with unbounded arithmetic on what fits, for every set size. */
  ghost predicate CeilingSound(cost: int, b: Budget) {
    forall n :: n >= 1 ==> (n <= MaxValidators(cost, b) <==> n <= SEARCH_MAX && n * (cost * b.peers) <= b.Bytes())
  }

  /** One ceiling is right exactly when its product fits int64, wraps to a value
      the early return rejects, or wraps beyond the budget. */
  lemma CeilingSoundCall(cost: int, b: Budget)
    requires NonNegative(b, b.peers) && cost >= 1 && b.peers >= 1
    ensures CeilingSound(cost, b)
       <==> IsInt64(cost * b.peers) || Product64(cost, b.peers) <= 0 || b.Bytes() < Product64(cost, b.peers)
  {
    var per := Product64(cost, b.peers);
    SignOfProduct(cost, b.peers);
    forall n | n >= 1
      ensures n <= MaxValidators(cost, b) <==> n <= SEARCH_MAX && 0 < per && n * per <= b.Bytes()
      ensures !IsInt64(cost * b.peers) ==> n * (cost * b.peers) > b.Bytes()
      ensures per > b.Bytes() ==> n * per > b.Bytes()
    {
      AdmitsBytes(cost, b, n);
      MulLe(1, n, cost * b.peers);
      if per > 0 {
        MulLe(1, n, per);
      }
    }
    if !IsInt64(cost * b.peers) && 0 < per <= b.Bytes() {
      assert 1 <= MaxValidators(cost, b) && 1 * (cost * b.peers) > b.Bytes();
    }
  }

  /** The ceiling is right for every budget exactly when the product of cost and
      peers fits int64, or wraps to a value the early return rejects. */
  lemma CeilingSoundIff(cost: int, peers: int)
    requires cost >= 1 && peers >= 1 && IsInt64(peers)
    ensures (forall b: Budget :: NonNegative(b, peers) ==> CeilingSound(cost, b))
       <==> IsInt64(cost * peers) || Product64(cost, peers) <= 0
  {
    forall b: Budget | NonNegative(b, peers) {
      CeilingSoundCall(cost, b);
    }
    if Product64(cost, peers) > 0 {
      assert NonNegative(BudgetOf(Product64(cost, peers), peers), peers);
    }
  }

  /** The requirement returns and agrees with unbounded arithmetic, for every cost. */
  ghost predicate RequirementSound(n: int, b: Budget) {
    && Require(Target("", n), b).Returned?
    && forall cost :: cost >= 1 ==> (cost <= MaxCost(n, b) <==> cost * (n * b.peers) <= b.Bytes())
  }

  /** One requirement is right exactly when its product fits int64, wraps to a
      negative value, or wraps beyond the budget. */
  lemma RequirementSoundCall(n: int, b: Budget)
    requires NonNegative(b, b.peers) && n >= 1 && b.peers >= 1
    ensures RequirementSound(n, b)
       <==> IsInt64(n * b.peers) || Product64(n, b.peers) < 0 || b.Bytes() < Product64(n, b.peers)
  {
    var divisor := Product64(n, b.peers);
    SignOfProduct(n, b.peers);
    AllowsBytes(n, b, 1);
    forall cost | cost >= 1
      ensures cost <= MaxCost(n, b) <==> DividesInto(cost, divisor, b.Bytes())
      ensures DividesInto(cost, divisor, b.Bytes()) <==> divisor > 0 && cost * divisor <= b.Bytes()
      ensures !IsInt64(n * b.peers) ==> cost * (n * b.peers) > b.Bytes()
      ensures divisor > b.Bytes() ==> cost * divisor > b.Bytes()
    {
      AllowsBytes(n, b, cost);
      MulLe(1, cost, n * b.peers);
      if divisor > 0 {
        MulLe(1, cost, divisor);
      } else if divisor < 0 {
        MulLe(1, cost, -divisor);
      }
    }
    if !IsInt64(n * b.peers) && 0 < divisor <= b.Bytes() {
      assert 1 <= MaxCost(n, b) && 1 * (n * b.peers) > b.Bytes();
    }
  }

  /** The requirement is right, and does not panic, for every budget exactly when
      the product of set size and peers fits int64 or wraps to a negative value. */
  lemma RequirementSoundIff(n: int, peers: int)
    requires n >= 1 && peers >= 1 && IsInt64(peers)
    ensures (forall b: Budget :: NonNegative(b, peers) ==> RequirementSound(n, b))
       <==> IsInt64(n * peers) || Product64(n, peers) < 0
  {
    forall b: Budget | NonNegative(b, peers) {
      RequirementSoundCall(n, b);
    }
    if Product64(n, peers) >= 0 {
      assert NonNegative(BudgetOf(Product64(n, peers), peers), peers);
    }
  }

  /** The first default target with 2^62 peers makes the program divide by zero. */
  lemma RequirementPanics(link: int, round: real)
    ensures Require(Target("pilot", 4), Budget(link, round, 0x4000_0000_0000_0000)) == Panicked
  {}
}
