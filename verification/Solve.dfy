/** The feasibility verdict, and the tightest cell of a grid of budgets. */
module Solve {
  import opened GoInt
  import opened Outcomes
  import opened Text
  import opened Sorting
  import opened Measure
  import opened Ceiling

  datatype Assessment = Assessment(scheme: string, costPerRound: int, maxCostPerRound: int, feasible: bool,
                                   reductionNeeded: real)

  /** Feasible exactly when the requirement is positive and the measured cost meets it. */
  method Assess(scheme: Scheme, req: Requirement) returns (out: Assessment)
    requires req.target.validators >= 0
    ensures out.scheme == scheme.name && out.maxCostPerRound == req.maxCostPerRound
    ensures out.costPerRound == RoundTripCost(scheme.sigBytes)
    ensures out.feasible <==> RoundTripCost(scheme.sigBytes) <= req.maxCostPerRound
    ensures req.maxCostPerRound > 0 ==>
              out.reductionNeeded * req.maxCostPerRound as real == out.costPerRound as real
    ensures req.maxCostPerRound <= 0 ==> out.reductionNeeded == 0.0
    ensures out.feasible <==> 0.0 < out.reductionNeeded <= 1.0
  {
    var sizes := Measure.Measure(scheme, [req.target.validators]);
    var cost := sizes.RoundTripBytes();
    RoundTripGrows(scheme.sigBytes, scheme.sigBytes + 1);
    out := Assessment(scheme.name, cost, req.maxCostPerRound, false, 0.0);
    if req.maxCostPerRound <= 0 {
      return;
    }
    out := out.(feasible := cost <= req.maxCostPerRound,
                reductionNeeded := cost as real / req.maxCostPerRound as real);
    RatioAtMostOne(cost, req.maxCostPerRound);
  }

  lemma RatioAtMostOne(a: int, b: int)
    requires a > 0 && b > 0
    ensures 0.0 < a as real / b as real
    ensures a as real / b as real <= 1.0 <==> a <= b
    ensures a as real / b as real * b as real == a as real
  {}

  predicate Feasible(sigBytes: nat, n: int, b: Budget) {
    RoundTripCost(sigBytes) <= MaxCost(n, b)
  }

  /** End to end, from signature length to verdict: what the requirement and the
      ceiling each decide, at the products as they wrap. They agree where the two
      divisions meet; the verdict is the exact inequality where its own product fits
      int64, and there is none where that product wraps to zero. */
  lemma VerdictMatchesCeiling(sigBytes: nat, n: int, b: Budget)
    requires b.Representable() && n >= 1
    ensures Require(Target("", n), b).Panicked? <==> Panics(n, b.peers)
    ensures Feasible(sigBytes, n, b)
       <==> b.peers >= 1 && DividesInto(RoundTripCost(sigBytes), Product64(n, b.peers), b.Bytes())
    ensures n <= MaxValidators(RoundTripCost(sigBytes), b)
       <==> && n <= SEARCH_MAX
            && 0 < Product64(RoundTripCost(sigBytes), b.peers)
            && n * Product64(RoundTripCost(sigBytes), b.peers) <= b.Bytes()
    ensures b.Bytes() >= 0 && Meet(RoundTripCost(sigBytes), n, b.peers) ==>
              (Feasible(sigBytes, n, b) <==> n <= MaxValidators(RoundTripCost(sigBytes), b))
    ensures IsInt64(n * b.peers) ==>
              (Feasible(sigBytes, n, b) <==> b.peers >= 1 && n * (RoundTripCost(sigBytes) * b.peers) <= b.Bytes())
  {
    var cost := RoundTripCost(sigBytes);
    RoundTripGrows(sigBytes, sigBytes + 1);
    AdmitsBytes(cost, b, n);
    AllowsBytes(n, b, cost);
    if b.Bytes() >= 0 {
      ThresholdsDecide(cost, n, b);
    }
    Commute(n, cost, b.peers);
    SignOfProduct(n, b.peers);
  }

  /** The verdict and the ceiling agree on every budget exactly when the two
      divisions meet at the measured cost; no target is then answered by a panic. */
  lemma VerdictIff(sigBytes: nat, n: int, peers: int)
    requires n >= 1 && IsInt64(peers)
    ensures (forall b: Budget :: NonNegative(b, peers) ==>
               && Require(Target("", n), b).Returned?
               && (Feasible(sigBytes, n, b) <==> n <= MaxValidators(RoundTripCost(sigBytes), b)))
       <==> Meet(RoundTripCost(sigBytes), n, peers)
  {
    RoundTripGrows(sigBytes, sigBytes + 1);
    GaloisIff(RoundTripCost(sigBytes), n, peers);
    assert forall b: Budget ::
        Adjoint(RoundTripCost(sigBytes), n, b)
        <==> && Require(Target("", n), b).Returned?
             && (Feasible(sigBytes, n, b) <==> n <= MaxValidators(RoundTripCost(sigBytes), b));
  }

  /** So many peers that the vote cost of ML-DSA-65 wraps to a small product. */
  const CROWD: int := 2_691_383_728_291_444

  /** With that many peers on 100 Mbit/s for one second, the ceiling of ML-DSA-65
      admits 2248 validators, the requirement leaves a single one nothing, and
      Ed25519 is admitted none. */
  lemma VerdictOverflows()
    ensures var b := Budget(100_000_000, 1.0, CROWD);
            && b.Representable()
            && RoundTripCost(3309) == 6854 && MaxValidators(6854, b) == 2248
            && MaxCost(1, b) == 0 && !Feasible(3309, 1, b) && !Meet(6854, 1, CROWD)
            && RoundTripCost(64) == 362 && MaxValidators(362, b) == 0
  {
    var b := Budget(100_000_000, 1.0, CROWD);
    assert b.Bytes() == 12_500_000;
    assert Product64(6854, CROWD) == 5560;
  }

  /** The verdict as the tool reaches it, by way of the requirement. */
  method Verdict(scheme: Scheme, t: Target, b: Budget) returns (feasible: Outcome<bool>)
    requires b.Representable() && t.validators >= 0
    ensures feasible.Panicked? <==> Panics(t.validators, b.peers)
    ensures feasible.Returned? ==>
              (feasible.value <==>
                && t.validators >= 1 && b.peers >= 1
                && DividesInto(RoundTripCost(scheme.sigBytes), Product64(t.validators, b.peers), b.Bytes()))
    ensures b.Bytes() >= 0 && t.validators >= 1
            && Meet(RoundTripCost(scheme.sigBytes), t.validators, b.peers) ==>
              && feasible.Returned?
              && (feasible.value <==> t.validators <= DeriveCeiling(RoundTripCost(scheme.sigBytes), b).maxValidators)
  {
    if t.validators >= 1 {
      VerdictMatchesCeiling(scheme.sigBytes, t.validators, b);
    }
    RoundTripGrows(scheme.sigBytes, scheme.sigBytes + 1);
    RequireIgnoresName(t, b);
    var req := Require(t, b);
    if req.Panicked? {
      return Panicked;
    }
    var out := Assess(scheme, req.value);
    feasible := Returned(out.feasible);
  }

  // ---------- monotonicity ----------

  /** The dearer product admits nobody, or does not wrap below the cheaper one. */
  predicate ProductsOrdered(cheap: int, roomyPeers: int, dear: int, tightPeers: int) {
    || Product64(dear, tightPeers) <= 0
    || 0 < Product64(cheap, roomyPeers) <= Product64(dear, tightPeers)
  }

  /** A dearer cost, fewer bytes or more peers never admit more validators. */
  lemma CeilingMonotone(cheap: int, roomy: Budget, dear: int, tight: Budget)
    requires roomy.Representable() && tight.Representable() && tight.Bytes() <= roomy.Bytes()
    requires ProductsOrdered(cheap, roomy.peers, dear, tight.peers)
    ensures MaxValidators(dear, tight) <= MaxValidators(cheap, roomy)
  {
    var n := MaxValidators(dear, tight);
    if n >= 1 {
      AdmitsBytes(dear, tight, n);
      MulLe(Product64(cheap, roomy.peers), Product64(dear, tight.peers), n);
      AdmitsBytes(cheap, roomy, n);
    } else {
      NeverNegative(cheap, roomy);
    }
  }

  /** Products that fit int64 are ordered as their factors are. */
  lemma FittingProductsOrdered(cheap: int, roomyPeers: int, dear: int, tightPeers: int)
    requires 1 <= cheap <= dear && IsInt64(dear * tightPeers) && IsInt64(tightPeers)
    requires roomyPeers == tightPeers || 1 <= roomyPeers <= tightPeers
    ensures ProductsOrdered(cheap, roomyPeers, dear, tightPeers)
  {
    SignOfProduct(dear, tightPeers);
    if tightPeers >= 1 {
      SignOfProduct(cheap, roomyPeers);
      MulLe(roomyPeers, tightPeers, cheap);
      MulLe(cheap, dear, tightPeers);
    }
  }

  /** A ceiling falls with its budget, whatever the two budgets, exactly when the
      products are ordered. */
  lemma CeilingMonotoneIff(cheap: int, roomyPeers: int, dear: int, tightPeers: int)
    requires IsInt64(roomyPeers) && IsInt64(tightPeers)
    ensures (forall roomy: Budget, tight: Budget ::
               NonNegative(roomy, roomyPeers) && NonNegative(tight, tightPeers) && tight.Bytes() <= roomy.Bytes() ==>
                 MaxValidators(dear, tight) <= MaxValidators(cheap, roomy))
       <==> ProductsOrdered(cheap, roomyPeers, dear, tightPeers)
  {
    if ProductsOrdered(cheap, roomyPeers, dear, tightPeers) {
      forall roomy: Budget, tight: Budget
        | NonNegative(roomy, roomyPeers) && NonNegative(tight, tightPeers) && tight.Bytes() <= roomy.Bytes()
        ensures MaxValidators(dear, tight) <= MaxValidators(cheap, roomy)
      {
        CeilingMonotone(cheap, roomy, dear, tight);
      }
    } else {
      var bytes := Product64(dear, tightPeers);
      OneOfItsOwnSize(cheap, dear, BudgetOf(bytes, roomyPeers), BudgetOf(bytes, tightPeers));
    }
  }

  /** A budget of exactly the dearer product admits one validator at that price and
      none at a higher one. */
  lemma OneOfItsOwnSize(cheap: int, dear: int, roomy: Budget, tight: Budget)
    requires NonNegative(roomy, roomy.peers) && NonNegative(tight, tight.peers)
    requires roomy.Bytes() == tight.Bytes() == Product64(dear, tight.peers)
    requires !ProductsOrdered(cheap, roomy.peers, dear, tight.peers)
    ensures MaxValidators(dear, tight) >= 1 && MaxValidators(cheap, roomy) == 0
  {
    AdmitsBytes(dear, tight, 1);
    AdmitsBytes(cheap, roomy, 1);
    NeverNegative(cheap, roomy);
  }

  /** A longer signature never raises the ceiling exactly when its cost, priced per
      validator, does not wrap below the shorter one's; it never does while the
      longer product fits int64. */
  lemma LongerSignatureIff(short: nat, long: nat, peers: int)
    requires short <= long && IsInt64(peers)
    ensures (forall b: Budget :: NonNegative(b, peers) ==>
               MaxValidators(RoundTripCost(long), b) <= MaxValidators(RoundTripCost(short), b))
       <==> ProductsOrdered(RoundTripCost(short), peers, RoundTripCost(long), peers)
    ensures IsInt64(RoundTripCost(long) * peers) ==>
              ProductsOrdered(RoundTripCost(short), peers, RoundTripCost(long), peers)
  {
    var cheap, dear := RoundTripCost(short), RoundTripCost(long);
    RoundTripGrows(short, short + 1);
    if short < long {
      RoundTripGrows(short, long);
    }
    if IsInt64(dear * peers) {
      FittingProductsOrdered(cheap, peers, dear, peers);
    }
    if ProductsOrdered(cheap, peers, dear, peers) {
      forall b: Budget | NonNegative(b, peers)
        ensures MaxValidators(dear, b) <= MaxValidators(cheap, b)
      {
        CeilingMonotone(cheap, b, dear, b);
      }
    } else {
      var b := BudgetOf(Product64(dear, peers), peers);
      OneOfItsOwnSize(cheap, dear, b, b);
      assert NonNegative(b, peers);
    }
  }

  lemma NeverNegative(cost: int, b: Budget)
    ensures MaxValidators(cost, b) >= 0
  {}

  // ---------- the grid ----------

  /** The budget at grid position (i, j, k). */
  function Cell(links: seq<int>, rounds: seq<real>, peers: seq<int>, i: nat, j: nat, k: nat): Budget
    requires i < |links| && j < |rounds| && k < |peers|
  {
    Budget(links[i], rounds[j], peers[k])
  }

  function PeerRow(cost: int, link: int, round: real, peers: seq<int>): (row: seq<Ceiling>)
    ensures |row| == |peers|
    ensures forall k :: 0 <= k < |peers| ==> row[k] == DeriveCeiling(cost, Budget(link, round, peers[k]))
  {
    seq(|peers|, k requires 0 <= k < |peers| => DeriveCeiling(cost, Budget(link, round, peers[k])))
  }

  function RowOf(cost: int, link: int, peers: seq<int>): real -> seq<Ceiling> {
    round => PeerRow(cost, link, round, peers)
  }

  function BlockOf(cost: int, rounds: seq<real>, peers: seq<int>): int -> seq<Ceiling> {
    link => FlatMap(rounds, RowOf(cost, link, peers))
  }

  function Grid(cost: int, links: seq<int>, rounds: seq<real>, peers: seq<int>): seq<Ceiling> {
    FlatMap(links, BlockOf(cost, rounds, peers))
  }

  /** The three nested loops of the report, appending one ceiling per cell. */
  method BuildGrid(cost: int, links: seq<int>, rounds: seq<real>, peers: seq<int>) returns (ceilings: seq<Ceiling>)
    ensures ceilings == Grid(cost, links, rounds, peers)
    ensures |ceilings| == |links| * |rounds| * |peers|
    ensures forall i: nat, j: nat, k: nat | i < |links| && j < |rounds| && k < |peers| ::
              && 0 <= GridIndex(|rounds|, |peers|, i, j, k) < |ceilings|
              && ceilings[GridIndex(|rounds|, |peers|, i, j, k)]
                 == DeriveCeiling(cost, Cell(links, rounds, peers, i, j, k))
  {
    ceilings := [];
    for i := 0 to |links|
      invariant ceilings == Grid(cost, links[..i], rounds, peers)
    {
      ghost var before := ceilings;
      for j := 0 to |rounds|
        invariant ceilings == before + FlatMap(rounds[..j], RowOf(cost, links[i], peers))
      {
        ghost var beforeRow := ceilings;
        ghost var row := PeerRow(cost, links[i], rounds[j], peers);
        for k := 0 to |peers|
          invariant ceilings == beforeRow + row[..k]
        {
          var c := DeriveCeiling(cost, Budget(links[i], rounds[j], peers[k]));
          assert c == row[k];
          ExtendPrefix(beforeRow, row, k);
          ceilings := ceilings + [c];
        }
        assert row[..|peers|] == row;
        FlatMapAppend(rounds, RowOf(cost, links[i], peers), j);
        Associate(before, FlatMap(rounds[..j], RowOf(cost, links[i], peers)), row);
      }
      assert rounds[..|rounds|] == rounds;
      FlatMapAppend(links, BlockOf(cost, rounds, peers), i);
    }
    assert links[..|links|] == links;
    GridLength(cost, links, rounds, peers);
    forall i: nat, j: nat, k: nat | i < |links| && j < |rounds| && k < |peers|
      ensures 0 <= GridIndex(|rounds|, |peers|, i, j, k) < |ceilings|
      ensures ceilings[GridIndex(|rounds|, |peers|, i, j, k)]
           == DeriveCeiling(cost, Cell(links, rounds, peers, i, j, k))
    {
      GridAt(cost, links, rounds, peers, i, j, k);
    }
  }

  lemma ExtendPrefix<T>(before: seq<T>, row: seq<T>, k: nat)
    requires k < |row|
    ensures before + row[..k] + [row[k]] == before + row[..k + 1]
  {}

  /** Every ceiling of the grid belongs to a cell. */
  lemma GridCeilingHasCell(cost: int, links: seq<int>, rounds: seq<real>, peers: seq<int>, c: Ceiling)
    requires c in Grid(cost, links, rounds, peers)
    ensures c.budget.linkBitsPerSec in links && c.budget.roundSeconds in rounds && c.budget.peers in peers
    ensures c == DeriveCeiling(cost, c.budget)
  {
    var link := FlatMapMember(links, BlockOf(cost, rounds, peers), c);
    var round := FlatMapMember(rounds, RowOf(cost, link, peers), c);
    assert c in PeerRow(cost, link, round, peers);
  }

  /** The position of cell (i, j, k): peers vary fastest, then rounds, then links. */
  function GridIndex(rounds: nat, peers: nat, i: nat, j: nat, k: nat): int {
    (i * rounds + j) * peers + k
  }

  lemma BlocksAreEqual(cost: int, rounds: seq<real>, peers: seq<int>)
    ensures forall link :: |BlockOf(cost, rounds, peers)(link)| == Position(|peers|, |rounds|, 0)
  {
    forall link
      ensures |BlockOf(cost, rounds, peers)(link)| == Position(|peers|, |rounds|, 0)
    {
      FlatMapLength(rounds, RowOf(cost, link, peers), |peers|);
    }
  }

  /** The grid holds one ceiling per cell, in the order of the three loops. */
  lemma GridAt(cost: int, links: seq<int>, rounds: seq<real>, peers: seq<int>, i: nat, j: nat, k: nat)
    requires i < |links| && j < |rounds| && k < |peers|
    ensures 0 <= GridIndex(|rounds|, |peers|, i, j, k) < |Grid(cost, links, rounds, peers)|
    ensures Grid(cost, links, rounds, peers)[GridIndex(|rounds|, |peers|, i, j, k)]
         == DeriveCeiling(cost, Cell(links, rounds, peers, i, j, k))
  {
    var size, at := Position(|peers|, |rounds|, 0), Position(|peers|, j, k);
    FlatMapLength(rounds, RowOf(cost, links[i], peers), |peers|);
    FlatMapAt(rounds, RowOf(cost, links[i], peers), |peers|, j, k);
    BlocksAreEqual(cost, rounds, peers);
    FlatMapAt(links, BlockOf(cost, rounds, peers), size, i, at);
    SplitIndex(i, |rounds|, |peers|, j, k);
  }

  lemma SplitIndex(i: nat, rounds: nat, size: nat, j: nat, k: nat)
    ensures GridIndex(rounds, size, i, j, k) == Position(Position(size, rounds, 0), i, Position(size, j, k))
  {
    Distribute(i * rounds, j, size);
    Regroup(i, rounds, size);
  }

  lemma Regroup(a: int, b: int, c: int)
    ensures a * b * c == a * (b * c)
  {}

  lemma GridLength(cost: int, links: seq<int>, rounds: seq<real>, peers: seq<int>)
    ensures |Grid(cost, links, rounds, peers)| == |links| * |rounds| * |peers|
  {
    BlocksAreEqual(cost, rounds, peers);
    FlatMapLength(links, BlockOf(cost, rounds, peers), Position(|peers|, |rounds|, 0));
    Regroup(|links|, |rounds|, |peers|);
  }

  /** Every cell has its ceiling in the grid. */
  lemma CellInGrid(cost: int, links: seq<int>, rounds: seq<real>, peers: seq<int>, i: nat, j: nat, k: nat)
    requires i < |links| && j < |rounds| && k < |peers|
    ensures DeriveCeiling(cost, Cell(links, rounds, peers, i, j, k)) in Grid(cost, links, rounds, peers)
  {
    GridAt(cost, links, rounds, peers, i, j, k);
  }

  /** The first ceiling among those that admit the fewest validators. */
  predicate FirstTightest(cs: seq<Ceiling>, i: nat) {
    && i < |cs|
    && (forall j :: 0 <= j < i ==> cs[i].maxValidators < cs[j].maxValidators)
    && (forall j :: i <= j < |cs| ==> cs[i].maxValidators <= cs[j].maxValidators)
  }

  lemma FirstTightestIsLeast(cs: seq<Ceiling>, at: nat, c: Ceiling)
    requires FirstTightest(cs, at) && c in cs
    ensures cs[at].maxValidators <= c.maxValidators
  {}

  method Tightest(cs: seq<Ceiling>) returns (best: Option<Ceiling>)
    ensures best.None? <==> cs == []
    ensures best.Some? ==> exists i: nat :: FirstTightest(cs, i) && best.value == cs[i]
  {
    if cs == [] {
      return None;
    }
    var tightest := cs[0];
    ghost var at: nat := 0;
    for j := 1 to |cs|
      invariant FirstTightest(cs[..j], at) && tightest == cs[at]
    {
      if cs[j].maxValidators < tightest.maxValidators {
        tightest := cs[j];
        at := j;
      }
    }
    assert cs[..|cs|] == cs;
    best := Some(tightest);
  }

  predicate Positive(links: seq<int>, rounds: seq<real>, peers: seq<int>) {
    && (forall x :: x in links ==> x > 0)
    && (forall x :: x in rounds ==> x > 0.0)
    && (forall x :: x in peers ==> x > 0)
  }

  /** Every cell of the grid has a byte budget that int64 holds. */
  predicate AllRepresentable(links: seq<int>, rounds: seq<real>, peers: seq<int>) {
    forall l, r, p :: l in links && r in rounds && p in peers ==> Budget(l, r, p).Representable()
  }

  lemma BytesMonotone(l: int, r: real, p: int, l': int, r': real, p': int)
    requires 0 <= l <= l' && 0.0 <= r <= r'
    ensures Budget(l, r, p).Bytes() <= Budget(l', r', p').Bytes()
  {
    var slow, fast := l as real / 8.0, l' as real / 8.0;
    ScaleReal(slow, r, r');
    ScaleReal(r', slow, fast);
    TruncRealMonotone(slow * r, fast * r');
  }

  /** Position of the slowest link, the shortest round and the most peers. */
  predicate WorstCorner(links: seq<int>, rounds: seq<real>, peers: seq<int>, i: nat, j: nat, k: nat) {
    && i < |links| && j < |rounds| && k < |peers|
    && (forall l :: l in links ==> links[i] <= l)
    && (forall r :: r in rounds ==> rounds[j] <= r)
    && (forall p :: p in peers ==> p <= peers[k])
  }

  /** The product at the most peers is rejected, or no other peer count has a
      product that is rejected or larger. */
  predicate Dominates(cost: int, peers: seq<int>, most: int) {
    || Product64(cost, most) <= 0
    || forall p :: p in peers ==> 0 < Product64(cost, p) <= Product64(cost, most)
  }

  lemma CornerIsTighter(cost: int, links: seq<int>, rounds: seq<real>, peers: seq<int>,
                        i: nat, j: nat, k: nat, cell: Budget)
    requires Positive(links, rounds, peers) && AllRepresentable(links, rounds, peers)
    requires WorstCorner(links, rounds, peers, i, j, k) && Dominates(cost, peers, peers[k])
    requires cell.linkBitsPerSec in links && cell.roundSeconds in rounds && cell.peers in peers
    ensures MaxValidators(cost, Cell(links, rounds, peers, i, j, k)) <= MaxValidators(cost, cell)
  {
    var corner := Cell(links, rounds, peers, i, j, k);
    assert corner.linkBitsPerSec in links && corner.roundSeconds in rounds && corner.peers in peers;
    assert cell == Budget(cell.linkBitsPerSec, cell.roundSeconds, cell.peers);
    BytesMonotone(corner.linkBitsPerSec, corner.roundSeconds, corner.peers,
                  cell.linkBitsPerSec, cell.roundSeconds, cell.peers);
    CeilingMonotone(cost, cell, cost, corner);
  }

  /** The worst corner binds: the tightest ceiling of the whole grid admits exactly
      what the slowest link, the shortest round and the most peers admit together. */
  lemma TightestIsWorstCorner(cost: int, links: seq<int>, rounds: seq<real>, peers: seq<int>,
                              i: nat, j: nat, k: nat, at: nat)
    requires Positive(links, rounds, peers) && AllRepresentable(links, rounds, peers)
    requires WorstCorner(links, rounds, peers, i, j, k) && Dominates(cost, peers, peers[k])
    requires FirstTightest(Grid(cost, links, rounds, peers), at)
    ensures Grid(cost, links, rounds, peers)[at].maxValidators
         == MaxValidators(cost, Cell(links, rounds, peers, i, j, k))
  {
    var grid := Grid(cost, links, rounds, peers);
    var least := grid[at];
    assert least in grid;
    GridCeilingHasCell(cost, links, rounds, peers, least);
    CornerIsTighter(cost, links, rounds, peers, i, j, k, least.budget);
    CellInGrid(cost, links, rounds, peers, i, j, k);
    FirstTightestIsLeast(grid, at, DeriveCeiling(cost, Cell(links, rounds, peers, i, j, k)));
  }

  /** Peer counts whose products fit int64 are dominated by the largest. */
  lemma FittingPeersDominate(cost: int, peers: seq<int>, most: int)
    requires cost >= 1 && IsInt64(cost * most) && IsInt64(most)
    requires forall p :: p in peers ==> 1 <= p <= most
    ensures Dominates(cost, peers, most)
  {
    forall p | p in peers
      ensures ProductsOrdered(cost, p, cost, most)
    {
      FittingProductsOrdered(cost, p, cost, most);
    }
  }

  /** The tightest ceilings of a grid are those of its worst corner. */
  ghost predicate CornerBinds(cost: int, links: seq<int>, rounds: seq<real>, peers: seq<int>, i: nat, j: nat, k: nat)
    requires i < |links| && j < |rounds| && k < |peers|
  {
    forall at: nat :: FirstTightest(Grid(cost, links, rounds, peers), at) ==>
                        Grid(cost, links, rounds, peers)[at].maxValidators
                        == MaxValidators(cost, Cell(links, rounds, peers, i, j, k))
  }

  /** For given peer counts the worst corner binds, whatever the links and rounds,
      exactly when the most peers dominate. */
  lemma CornerBindsIff(cost: int, peers: seq<int>, k: nat)
    requires k < |peers| && forall p :: p in peers ==> 1 <= p <= peers[k] < TWO_63
    ensures (forall links, rounds, i: nat, j: nat
               | && Positive(links, rounds, peers) && AllRepresentable(links, rounds, peers)
                 && WorstCorner(links, rounds, peers, i, j, k) ::
               CornerBinds(cost, links, rounds, peers, i, j, k))
       <==> Dominates(cost, peers, peers[k])
  {
    if Dominates(cost, peers, peers[k]) {
      forall links, rounds, i: nat, j: nat
        | && Positive(links, rounds, peers) && AllRepresentable(links, rounds, peers)
          && WorstCorner(links, rounds, peers, i, j, k)
        ensures CornerBinds(cost, links, rounds, peers, i, j, k)
      {
        forall at: nat | FirstTightest(Grid(cost, links, rounds, peers), at)
          ensures Grid(cost, links, rounds, peers)[at].maxValidators
               == MaxValidators(cost, Cell(links, rounds, peers, i, j, k))
        {
          TightestIsWorstCorner(cost, links, rounds, peers, i, j, k, at);
        }
      }
    } else {
      var p :| p in peers && !(0 < Product64(cost, p) <= Product64(cost, peers[k]));
      AnotherCellBinds(cost, peers, k, p);
    }
  }

  /** On one link and one round that carry exactly the product at the most peers,
      an undominated peer count admits nobody while the worst corner admits one. */
  lemma AnotherCellBinds(cost: int, peers: seq<int>, k: nat, p: int)
    requires k < |peers| && p in peers && Product64(cost, peers[k]) > 0
    requires forall p :: p in peers ==> 1 <= p <= peers[k] < TWO_63
    requires !(0 < Product64(cost, p) <= Product64(cost, peers[k]))
    ensures var links, rounds := [Product64(cost, peers[k])], [8.0];
            && Positive(links, rounds, peers) && AllRepresentable(links, rounds, peers)
            && WorstCorner(links, rounds, peers, 0, 0, k) && !CornerBinds(cost, links, rounds, peers, 0, 0, k)
  {
    var bytes := Product64(cost, peers[k]);
    var links, rounds := [bytes], [8.0];
    forall q | q in peers
      ensures Budget(bytes, 8.0, q).Representable()
    {
      assert Budget(bytes, 8.0, q) == BudgetOf(bytes, q);
    }
    assert links[0] in links && rounds[0] in rounds;
    var other: nat :| other < |peers| && peers[other] == p;
    var corner, cell := Cell(links, rounds, peers, 0, 0, k), Cell(links, rounds, peers, 0, 0, other);
    assert corner == BudgetOf(bytes, peers[k]) && cell == BudgetOf(bytes, p);
    OneOfItsOwnSize(cost, cost, cell, corner);
    TighterCell(cost, links, rounds, peers, 0, 0, k, other);
  }

  /** The crowd beside 50 peers: the most peers admit 2248 validators, the fewer 36,
      so the worst corner does not bind. */
  lemma CornerOverflows()
    ensures var links, rounds, peers := [100_000_000], [1.0], [50, CROWD];
            && Positive(links, rounds, peers) && AllRepresentable(links, rounds, peers)
            && WorstCorner(links, rounds, peers, 0, 0, 1)
            && MaxValidators(6854, Cell(links, rounds, peers, 0, 0, 1)) == 2248
            && MaxValidators(6854, Cell(links, rounds, peers, 0, 0, 0)) == 36
            && !CornerBinds(6854, links, rounds, peers, 0, 0, 1)
  {
    VerdictOverflows();
    var b := Budget(100_000_000, 1.0, 50);
    assert b.Bytes() == 12_500_000;
    TighterCell(6854, [100_000_000], [1.0], [50, CROWD], 0, 0, 1, 0);
  }

  /** A cell tighter than another keeps that other from binding. */
  lemma TighterCell(cost: int, links: seq<int>, rounds: seq<real>, peers: seq<int>, i: nat, j: nat, k: nat, other: nat)
    requires i < |links| && j < |rounds| && k < |peers| && other < |peers|
    requires MaxValidators(cost, Cell(links, rounds, peers, i, j, other))
           < MaxValidators(cost, Cell(links, rounds, peers, i, j, k))
    ensures !CornerBinds(cost, links, rounds, peers, i, j, k)
  {
    var grid := Grid(cost, links, rounds, peers);
    CellInGrid(cost, links, rounds, peers, i, j, other);
    var at := SomeTightest(grid);
    FirstTightestIsLeast(grid, at, DeriveCeiling(cost, Cell(links, rounds, peers, i, j, other)));
  }

  lemma {:induction false} SomeTightest(cs: seq<Ceiling>) returns (at: nat)
    requires cs != []
    ensures FirstTightest(cs, at)
  {
    var last := |cs| - 1;
    at := last;
    if last > 0 {
      at := SomeTightest(cs[..last]);
      if cs[last].maxValidators < cs[at].maxValidators {
        at := last;
      }
    }
  }

  /** The report's binding constraint: `Tightest` over the ceilings of every cell. */
  method BindingConstraint(cost: int, links: seq<int>, rounds: seq<real>, peers: seq<int>)
    returns (best: Option<Ceiling>)
    requires Positive(links, rounds, peers) && AllRepresentable(links, rounds, peers)
    ensures best.None? <==> links == [] || rounds == [] || peers == []
    ensures best.Some? ==>
              exists at: nat :: FirstTightest(Grid(cost, links, rounds, peers), at)
                                && best.value == Grid(cost, links, rounds, peers)[at]
    ensures best.Some? ==>
              forall i: nat, j: nat, k: nat
                | WorstCorner(links, rounds, peers, i, j, k) && Dominates(cost, peers, peers[k]) ::
                best.value.maxValidators == MaxValidators(cost, Cell(links, rounds, peers, i, j, k))
  {
    var ceilings := BuildGrid(cost, links, rounds, peers);
    best := Tightest(ceilings);
    GridIsEmptyIff(cost, links, rounds, peers);
    if best.Some? {
      ghost var at: nat :| FirstTightest(ceilings, at) && best.value == ceilings[at];
      forall i: nat, j: nat, k: nat | WorstCorner(links, rounds, peers, i, j, k) && Dominates(cost, peers, peers[k])
        ensures best.value.maxValidators == MaxValidators(cost, Cell(links, rounds, peers, i, j, k))
      {
        TightestIsWorstCorner(cost, links, rounds, peers, i, j, k, at);
      }
    }
  }

  lemma GridIsEmptyIff(cost: int, links: seq<int>, rounds: seq<real>, peers: seq<int>)
    ensures Grid(cost, links, rounds, peers) == [] <==> links == [] || rounds == [] || peers == []
  {
    GridLength(cost, links, rounds, peers);
    if links != [] && rounds != [] && peers != [] {
      CellInGrid(cost, links, rounds, peers, 0, 0, 0);
    }
  }
}
