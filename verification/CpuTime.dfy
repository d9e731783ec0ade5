/** Sampling, percentiles and the round-feasibility verdict. Durations are
    nanosecond counts; clock readings are inputs. */
module CpuTime {
  import opened GoInt
  import opened Outcomes
  import opened Sorting

  predicate IntLe(a: int, b: int) {
    a <= b
  }

  lemma IntLeIsTotalOrder()
    ensures TotalOrder(IntLe)
  {}

  /** How many keys to sample across: a hundredth of the iterations, kept in 8..32. */
  function KeyRounds(iterations: int): (k: int)
    ensures 8 <= k <= 32
    ensures iterations >= 8 ==> k <= iterations
    ensures 8 < k < 32 ==> 100 * k <= iterations < 100 * k + 100
    ensures k == 8 ==> iterations < 900
    ensures k == 32 ==> 3200 <= iterations
  {
    var k := TruncDiv(iterations, 100);
    if k < 8 then 8 else if k > 32 then 32 else k
  }

  /** `sort.Slice` by duration. */
  method SortDurations(d: array<int>)
    modifies d
    ensures d[..] == Sort(old(d[..]), IntLe)
  {
    var sorted := Sort(d[..], IntLe);
    SortPermutes(d[..], IntLe);
    for i := 0 to d.Length
      invariant d[..i] == sorted[..i]
    {
      d[i] := sorted[i];
    }
  }

  /** Times one operation per iteration; `clock` holds what each timing reads. */
  method Sample(clock: seq<int>) returns (out: array<int>)
    ensures fresh(out) && out[..] == Sort(clock, IntLe)
  {
    out := new int[|clock|];
    for i := 0 to |clock|
      invariant out[..i] == clock[..i]
    {
      out[i] := clock[i];
    }
    assert out[..] == clock;
    SortDurations(out);
  }

  function PctIndex(n: nat, p: real): (i: nat)
    requires n >= 1 && 0.0 <= p <= 1.0
    ensures i < n
    ensures i as real <= (n - 1) as real * p < (i + 1) as real
  {
    ScaleUnit((n - 1) as real, p);
    TruncUpTo((n - 1) as real * p, n - 1);
    TruncReal((n - 1) as real * p)
  }

  lemma TruncUpTo(x: real, k: nat)
    requires 0.0 <= x <= k as real
    ensures 0 <= TruncReal(x) <= k
    ensures TruncReal(x) as real <= x < (TruncReal(x) + 1) as real
  {}

  lemma ScaleUnit(k: real, p: real)
    requires k >= 0.0 && 0.0 <= p <= 1.0
    ensures 0.0 <= k * p <= k
  {}

  function Pct(sorted: seq<int>, p: real): (reading: int)
    requires 0.0 <= p <= 1.0
    ensures sorted == [] ==> reading == 0
    ensures sorted != [] ==> reading in sorted
  {
    if sorted == [] then 0 else sorted[PctIndex(|sorted|, p)]
  }

  datatype Profile = Profile(signP50: int, signP95: int, signMin: int, signMax: int,
                             verifyP50: int, verifyP95: int, samples: nat)

  /** Indexing the first sample of an empty sample panics. */
  function ProfileFrom(signs: seq<int>, verifies: seq<int>): Outcome<Profile> {
    if signs == [] then Panicked
    else Returned(Profile(Pct(signs, 0.50), Pct(signs, 0.95), signs[0], signs[|signs| - 1],
                          Pct(verifies, 0.50), Pct(verifies, 0.95), |signs|))
  }

  function Itself(round: seq<int>): seq<int> {
    round
  }

  function Flatten(rounds: seq<seq<int>>): seq<int> {
    FlatMap(rounds, Itself)
  }

  function LessThan(x: int): int -> bool {
    y => y < x
  }

  function UpTo(x: int): int -> bool {
    y => y <= x
  }

  /** How many readings are below `x`, and how many do not exceed it. */
  function Below(readings: seq<int>, x: int): nat {
    |Filter(readings, LessThan(x))|
  }

  function AtMost(readings: seq<int>, x: int): nat {
    |Filter(readings, UpTo(x))|
  }

  /** At most half of the other readings are below a median, and more than half do
      not exceed it; nineteen twentieths for the 95th percentile. */
  predicate IsMedian(x: int, readings: seq<int>) {
    x in readings && 2 * Below(readings, x) <= |readings| - 1 < 2 * AtMost(readings, x)
  }

  predicate IsPercentile95(x: int, readings: seq<int>) {
    x in readings && 20 * Below(readings, x) <= 19 * (|readings| - 1) < 20 * AtMost(readings, x)
  }

  /** The reported figures are the extremes, the median and the 95th percentile of the
      readings, and the sample falls short of the iterations by less than one per key. */
  predicate SoundProfile(p: Profile, iterations: nat, keys: nat, signs: seq<int>, verifies: seq<int>) {
    && p.signMin <= p.signP50 <= p.signP95 <= p.signMax
    && p.signMin in signs && p.signMax in signs
    && (forall x :: x in signs ==> p.signMin <= x <= p.signMax)
    && IsMedian(p.signP50, signs) && IsPercentile95(p.signP95, signs)
    && p.verifyP50 <= p.verifyP95
    && IsMedian(p.verifyP50, verifies) && IsPercentile95(p.verifyP95, verifies)
    && p.samples == |signs| && iterations - keys < p.samples <= iterations
  }

  /** Appends the sorted sample of every key, then sorts the whole. */
  method Pool(clock: seq<seq<int>>) returns (pooled: seq<int>)
    ensures pooled == Sort(Flatten(clock), IntLe)
  {
    pooled := [];
    for k := 0 to |clock|
      invariant multiset(pooled) == multiset(Flatten(clock[..k]))
    {
      var s := Sample(clock[k]);
      SortPermutes(clock[k], IntLe);
      pooled := pooled + s[..];
      FlatMapAppend(clock, Itself, k);
    }
    assert clock[..|clock|] == clock;
    SameSorted(pooled, Flatten(clock));
    pooled := Sort(pooled, IntLe);
  }

  /** Pools the samples of every key and profiles them. Fewer than eight
      iterations leave every key without a sample, and the profile panics. */
  method MeasureAcrossKeys(iterations: nat, signClock: seq<seq<int>>, verifyClock: seq<seq<int>>)
    returns (profile: Outcome<Profile>)
    requires |signClock| == |verifyClock| == KeyRounds(iterations)
    requires forall r :: r in signClock ==> |r| == iterations / KeyRounds(iterations)
    requires forall r :: r in verifyClock ==> |r| == iterations / KeyRounds(iterations)
    ensures profile.Returned? <==> iterations >= 8
    ensures profile.Returned? ==>
              SoundProfile(profile.value, iterations, KeyRounds(iterations),
                           Flatten(signClock), Flatten(verifyClock))
    ensures profile == ProfileFrom(Sort(Flatten(signClock), IntLe), Sort(Flatten(verifyClock), IntLe))
  {
    var signs := Pool(signClock);
    var verifies := Pool(verifyClock);
    profile := ProfileFrom(signs, verifies);
    PooledLength(iterations, signClock);
    PooledLength(iterations, verifyClock);
    SortedProfile(Flatten(signClock), Flatten(verifyClock), iterations, KeyRounds(iterations));
  }

  /** Profiles the samples of one key; only an empty sample panics. */
  method MeasureOneKey(signClock: seq<int>, verifyClock: seq<int>) returns (profile: Outcome<Profile>)
    requires |signClock| == |verifyClock|
    ensures profile.Returned? <==> |signClock| > 0
    ensures profile.Returned? ==>
              SoundProfile(profile.value, |signClock|, 1, signClock, verifyClock)
    ensures profile == ProfileFrom(Sort(signClock, IntLe), Sort(verifyClock, IntLe))
  {
    var signs := Sample(signClock);
    var verifies := Sample(verifyClock);
    profile := ProfileFrom(signs[..], verifies[..]);
    SortedProfile(signClock, verifyClock, |signClock|, 1);
  }

  lemma PooledLength(iterations: nat, clock: seq<seq<int>>)
    requires |clock| == KeyRounds(iterations)
    requires forall r :: r in clock ==> |r| == iterations / KeyRounds(iterations)
    ensures |Flatten(clock)| == KeyRounds(iterations) * (iterations / KeyRounds(iterations))
    ensures iterations - KeyRounds(iterations) < |Flatten(clock)| <= iterations
    ensures Flatten(clock) == [] <==> iterations < 8
  {
    FlatMapLength(clock, Itself, iterations / KeyRounds(iterations));
    PooledSize(iterations, KeyRounds(iterations));
  }

  lemma SortedProfile(signs: seq<int>, verifies: seq<int>, iterations: nat, keys: nat)
    requires |signs| == |verifies| && iterations - keys < |signs| <= iterations
    ensures ProfileFrom(Sort(signs, IntLe), Sort(verifies, IntLe)).Returned? <==> signs != []
    ensures signs != [] ==>
              SoundProfile(ProfileFrom(Sort(signs, IntLe), Sort(verifies, IntLe)).value,
                           iterations, keys, signs, verifies)
  {
    SortKeepsReadings(signs);
    if signs != [] {
      SortedExtremes(signs);
      Percentiles(signs);
      Percentiles(verifies);
    }
  }

  lemma SortedExtremes(readings: seq<int>)
    requires readings != []
    ensures var sorted := Sort(readings, IntLe);
            && |sorted| == |readings|
            && sorted[0] <= Pct(sorted, 0.50) && Pct(sorted, 0.95) <= sorted[|sorted| - 1]
            && sorted[0] in readings && sorted[|sorted| - 1] in readings
            && forall x :: x in readings ==> sorted[0] <= x <= sorted[|sorted| - 1]
  {
    SortKeepsReadings(readings);
    Extremes(Sort(readings, IntLe));
    PctRank(readings, 0.50);
    PctRank(readings, 0.95);
  }

  lemma Percentiles(readings: seq<int>)
    requires readings != []
    ensures var sorted := Sort(readings, IntLe);
            && IsMedian(Pct(sorted, 0.50), readings) && IsPercentile95(Pct(sorted, 0.95), readings)
            && Pct(sorted, 0.50) <= Pct(sorted, 0.95)
  {
    ReadMedian(readings);
    ReadPercentile95(readings);
    PercentilesInOrder(readings);
  }

  lemma ReadMedian(readings: seq<int>)
    requires readings != []
    ensures IsMedian(Pct(Sort(readings, IntLe), 0.50), readings)
  {
    IndexGrows(|readings|);
    PctRank(readings, 0.50);
    MedianByRank(Pct(Sort(readings, IntLe), 0.50), PctIndex(|readings|, 0.50), readings);
  }

  lemma ReadPercentile95(readings: seq<int>)
    requires readings != []
    ensures IsPercentile95(Pct(Sort(readings, IntLe), 0.95), readings)
  {
    IndexGrows(|readings|);
    PctRank(readings, 0.95);
    Percentile95ByRank(Pct(Sort(readings, IntLe), 0.95), PctIndex(|readings|, 0.95), readings);
  }

  lemma PercentilesInOrder(readings: seq<int>)
    requires readings != []
    ensures Pct(Sort(readings, IntLe), 0.50) <= Pct(Sort(readings, IntLe), 0.95)
  {
    IndexGrows(|readings|);
    SortKeepsReadings(readings);
  }

  lemma MedianByRank(x: int, rank: nat, readings: seq<int>)
    requires x in readings && Below(readings, x) <= rank < AtMost(readings, x)
    requires 2 * rank <= |readings| - 1 < 2 * (rank + 1)
    ensures IsMedian(x, readings)
  {}

  lemma Percentile95ByRank(x: int, rank: nat, readings: seq<int>)
    requires x in readings && Below(readings, x) <= rank < AtMost(readings, x)
    requires 20 * rank <= 19 * (|readings| - 1) < 20 * (rank + 1)
    ensures IsPercentile95(x, readings)
  {}

  lemma SortKeepsReadings(readings: seq<int>)
    ensures var sorted := Sort(readings, IntLe);
            && |sorted| == |readings| && Ordered(sorted, IntLe)
            && multiset(sorted) == multiset(readings)
            && forall x :: x in sorted <==> x in readings
  {
    IntLeIsTotalOrder();
    SortPermutes(readings, IntLe);
    SortOrders(readings, IntLe);
    MultisetMembers(Sort(readings, IntLe), readings);
  }

  /** The rank of a percentile among the readings. */
  lemma PctRank(readings: seq<int>, p: real)
    requires readings != [] && 0.0 <= p <= 1.0
    ensures var x := Pct(Sort(readings, IntLe), p);
            x in readings && Below(readings, x) <= PctIndex(|readings|, p) < AtMost(readings, x)
  {
    var sorted := Sort(readings, IntLe);
    SortKeepsReadings(readings);
    var i := PctIndex(|sorted|, p);
    assert sorted[i] in sorted;
    RankInSorted(sorted, i);
    SameRanks(sorted, readings, sorted[i]);
  }

  lemma IndexGrows(n: nat)
    requires n >= 1
    ensures 2 * PctIndex(n, 0.50) <= n - 1 < 2 * (PctIndex(n, 0.50) + 1)
    ensures 20 * PctIndex(n, 0.95) <= 19 * (n - 1) < 20 * (PctIndex(n, 0.95) + 1)
    ensures PctIndex(n, 0.50) <= PctIndex(n, 0.95)
  {}

  lemma Extremes(sorted: seq<int>)
    requires sorted != [] && Ordered(sorted, IntLe)
    ensures forall x :: x in sorted ==> sorted[0] <= x <= sorted[|sorted| - 1]
  {}

  lemma RankInSorted(sorted: seq<int>, i: nat)
    requires i < |sorted| && Ordered(sorted, IntLe)
    ensures Below(sorted, sorted[i]) <= i < AtMost(sorted, sorted[i])
  {
    FewBelow(sorted[..i], sorted[i..], sorted[i]);
    assert sorted == sorted[..i] + sorted[i..];
    ManyUpTo(sorted[..i + 1], sorted[i + 1..], sorted[i]);
    assert sorted == sorted[..i + 1] + sorted[i + 1..];
  }

  lemma FewBelow(a: seq<int>, b: seq<int>, x: int)
    requires forall y :: y in b ==> x <= y
    ensures Below(a + b, x) <= |a|
  {
    FilterConcat(a, b, LessThan(x));
    FilterLength(a, LessThan(x));
    FilterNothing(b, LessThan(x));
  }

  lemma ManyUpTo(a: seq<int>, b: seq<int>, x: int)
    requires forall y :: y in a ==> y <= x
    ensures AtMost(a + b, x) >= |a|
  {
    FilterConcat(a, b, UpTo(x));
    FilterLength(a, UpTo(x));
  }

  lemma SameRanks(a: seq<int>, b: seq<int>, x: int)
    requires multiset(a) == multiset(b)
    ensures Below(a, x) == Below(b, x) && AtMost(a, x) == AtMost(b, x)
  {
    FilterOfPermutation(a, b, LessThan(x));
    FilterOfPermutation(a, b, UpTo(x));
  }

  /** How many readings the keys share out. */
  lemma PooledSize(iterations: nat, keys: nat)
    requires keys > 0
    ensures iterations - keys < keys * (iterations / keys) <= iterations
    ensures iterations < keys <==> keys * (iterations / keys) == 0
  {}

  /** Two lists with the same elements sort to the same list. */
  lemma SameSorted(a: seq<int>, b: seq<int>)
    requires multiset(a) == multiset(b)
    ensures Sort(a, IntLe) == Sort(b, IntLe)
  {
    IntLeIsTotalOrder();
    SortPermutes(a, IntLe);
    SortPermutes(b, IntLe);
    SortOrders(a, IntLe);
    SortOrders(b, IntLe);
    SameLength(Sort(a, IntLe), Sort(b, IntLe));
    OrderedIsUnique(Sort(a, IntLe), Sort(b, IntLe));
  }

  lemma SameHead(a: seq<int>, b: seq<int>)
    requires a != [] && b != [] && Ordered(a, IntLe) && Ordered(b, IntLe) && multiset(a) == multiset(b)
    ensures a[0] == b[0]
  {
    MultisetMembers(a, b);
    assert a[0] in a && b[0] in b;
    HeadIsLeast(a, b[0]);
    HeadIsLeast(b, a[0]);
  }

  lemma {:induction false} OrderedIsUnique(a: seq<int>, b: seq<int>)
    requires |a| == |b| && Ordered(a, IntLe) && Ordered(b, IntLe) && multiset(a) == multiset(b)
    ensures a == b
    decreases |a|
  {
    if a != [] {
      SameHead(a, b);
      TailMultiset(a);
      TailMultiset(b);
      TailOrdered(a);
      TailOrdered(b);
      OrderedIsUnique(a[1..], b[1..]);
      HeadAndTail(a, b);
    }
  }

  lemma HeadAndTail(a: seq<int>, b: seq<int>)
    requires a != [] && b != [] && a[0] == b[0] && a[1..] == b[1..]
    ensures a == b
  {}

  lemma SameLength(a: seq<int>, b: seq<int>)
    requires multiset(a) == multiset(b)
    ensures |a| == |b|
  {
    assert |multiset(a)| == |multiset(b)|;
  }

  lemma TailOrdered(s: seq<int>)
    requires s != [] && Ordered(s, IntLe)
    ensures Ordered(s[1..], IntLe)
  {}

  lemma HeadIsLeast(s: seq<int>, x: int)
    requires Ordered(s, IntLe) && x in s
    ensures s[0] <= x
  {}

  lemma TailMultiset(s: seq<int>)
    requires s != []
    ensures multiset(s[1..]) == multiset(s) - multiset{s[0]}
  {
    assert s == [s[0]] + s[1..];
  }

  // ---------- round feasibility ----------

  const SECOND: real := 1_000_000_000.0

  datatype RoundFeasibility = RoundFeasibility(serialVerify: int, cores: int, withCores: int, budget: int, fits: bool)

  /** The round in nanoseconds, as it is converted to int64. */
  function RoundBudget(roundSeconds: real): int {
    TruncReal(roundSeconds * SECOND)
  }

  /** The budget is the whole nanoseconds of the round. */
  lemma BudgetOfRound(roundSeconds: real)
    requires roundSeconds >= 0.0
    ensures RoundBudget(roundSeconds) as real <= 1_000_000_000.0 * roundSeconds
          < (RoundBudget(roundSeconds) + 1) as real
  {
    TruncRealExact(roundSeconds * SECOND, RoundBudget(roundSeconds));
  }

  function AssessRound(validators: int, roundSeconds: real, verify: int, cores: int): RoundFeasibility {
    var used := if cores < 1 then 1 else cores;
    var sent := Wrap64(2 * Wrap64(validators - 1));
    var votes := if sent < 0 then 0 else sent;
    var serial := Wrap64(votes * verify);
    var withCores := TruncDiv(serial, used);
    var budget := RoundBudget(roundSeconds);
    RoundFeasibility(serial, used, withCores, budget, withCores < budget)
  }

  function Votes(validators: int): nat {
    if validators > 1 then 2 * (validators - 1) else 0
  }

  function Cores(cores: int): int {
    if cores < 1 then 1 else cores
  }

  /** The reported serial verification time, which neither the round nor the cores touch. */
  function SerialTime(validators: int, verify: int): int {
    AssessRound(validators, 1.0, verify, 1).serialVerify
  }

  lemma SerialTimeFits(validators: int, verify: nat)
    requires IsInt64(validators) && validators > -TWO_63 / 2 && IsInt64(Votes(validators) * verify)
    ensures SerialTime(validators, verify) == Votes(validators) * verify
  {
    if verify > 0 {
      MulLe(1, verify, Votes(validators));
    }
  }

  /** The reported figures: the true serial time where it fits int64, its truncated
      share per core with at least one core, and the whole nanoseconds of the round. */
  lemma AssessedFigures(validators: int, roundSeconds: real, verify: nat, cores: int)
    requires IsInt64(validators) && validators > -TWO_63 / 2 && IsInt64(Votes(validators) * verify)
    requires roundSeconds >= 0.0
    ensures var f := AssessRound(validators, roundSeconds, verify, cores);
            && f.serialVerify == (if validators > 1 then 2 * (validators - 1) * verify else 0)
            && f.cores == (if cores >= 1 then cores else 1)
            && f.withCores * f.cores <= f.serialVerify < (f.withCores + 1) * f.cores
            && f.budget as real <= 1_000_000_000.0 * roundSeconds < (f.budget + 1) as real
            && (f.fits <==> f.withCores < f.budget)
  {
    var f := AssessRound(validators, roundSeconds, verify, cores);
    SerialTimeFits(validators, verify);
    VotesTimes(validators, verify);
    BudgetOfRound(roundSeconds);
    TruncDivExact(f.serialVerify, f.cores, f.withCores);
    Distribute(f.withCores, 1, f.cores);
  }

  /** Without overflow, the divided times compare as the undivided ones do. */
  lemma RoundFitsIff(validators: int, roundSeconds: real, verify: nat, cores: int)
    requires IsInt64(validators) && validators > -TWO_63 / 2 && IsInt64(Votes(validators) * verify)
    requires IsInt64(RoundBudget(roundSeconds)) && IsInt64(cores)
    ensures AssessRound(validators, roundSeconds, verify, cores).fits
       <==> Votes(validators) * verify < RoundBudget(roundSeconds) * Cores(cores)
  {
    SerialTimeFits(validators, verify);
    FitsWhenExact(validators, roundSeconds, verify, cores);
  }

  lemma FitsWhenExact(validators: int, roundSeconds: real, verify: nat, cores: int)
    requires SerialTime(validators, verify) == Votes(validators) * verify >= 0
    ensures AssessRound(validators, roundSeconds, verify, cores).fits
       <==> Votes(validators) * verify < RoundBudget(roundSeconds) * Cores(cores)
  {
    TruncDivBelow(SerialTime(validators, verify), Cores(cores), RoundBudget(roundSeconds));
  }

  /** The verdict is right for every round time that converts to int64 nanoseconds
      and every core count. */
  ghost predicate RoundSound(validators: int, verify: nat) {
    forall roundSeconds: real, cores: int
      | roundSeconds > 0.0 && IsInt64(RoundBudget(roundSeconds)) && IsInt64(cores) ::
      AssessRound(validators, roundSeconds, verify, cores).fits
      <==> Votes(validators) * verify < RoundBudget(roundSeconds) * Cores(cores)
  }

  /** The verdict is right exactly when the reported serial time is the true one,
      which is exactly when the true one fits int64. */
  lemma RoundSoundIff(validators: int, verify: nat)
    requires IsInt64(validators) && IsInt64(verify)
    ensures RoundSound(validators, verify) <==> SerialTime(validators, verify) == Votes(validators) * verify
    ensures validators > -TWO_63 / 2 ==>
              (RoundSound(validators, verify) <==> IsInt64(Votes(validators) * verify))
  {
    if SerialTime(validators, verify) == Votes(validators) * verify {
      VotesTimes(validators, verify);
      forall roundSeconds: real, cores: int
        ensures AssessRound(validators, roundSeconds, verify, cores).fits
           <==> Votes(validators) * verify < RoundBudget(roundSeconds) * Cores(cores)
      {
        FitsWhenExact(validators, roundSeconds, verify, cores);
      }
    } else {
      MistakenVerdict(validators, verify);
    }
    if validators > -TWO_63 / 2 && IsInt64(Votes(validators) * verify) {
      SerialTimeFits(validators, verify);
    }
  }

  lemma VotesTimes(validators: int, verify: nat)
    ensures Votes(validators) * verify >= 0
  {}

  /** A wrong serial time is betrayed by a round of two nanoseconds or less. */
  lemma MistakenVerdict(validators: int, verify: nat)
    requires SerialTime(validators, verify) != Votes(validators) * verify
    ensures !RoundSound(validators, verify)
  {
    VotesTimes(validators, verify);
    BriefRounds();
    var budget, cores := TellingRound(SerialTime(validators, verify), Votes(validators) * verify);
    var round := if budget == 0 then 0.5 / SECOND else if budget == 1 then 1.0 / SECOND else 2.0 / SECOND;
    FitsBySerial(validators, round, verify, cores);
  }

  lemma FitsBySerial(validators: int, roundSeconds: real, verify: int, cores: int)
    ensures AssessRound(validators, roundSeconds, verify, cores).fits
       <==> TruncDiv(SerialTime(validators, verify), Cores(cores)) < RoundBudget(roundSeconds)
  {}

  /** A budget and a core count on which two different serial times disagree. */
  lemma TellingRound(serial: int, exact: nat) returns (budget: nat, cores: int)
    requires IsInt64(serial) && serial != exact
    ensures 0 <= budget <= 2 && cores >= 1 && IsInt64(cores)
    ensures (TruncDiv(serial, cores) < budget) != (exact < budget * cores)
  {
    budget, cores := 1, exact + 1;
    if serial < 0 {
      budget, cores := 0, 1;
    } else if serial == TWO_63 - 1 && serial < exact {
      budget, cores := 2, TWO_63 / 2;
    } else if serial < exact {
      cores := serial + 1;
    }
    if serial >= 0 {
      TruncDivBelow(serial, cores, budget);
    }
  }

  lemma BriefRounds()
    ensures RoundBudget(0.5 / SECOND) == 0 && RoundBudget(1.0 / SECOND) == 1 && RoundBudget(2.0 / SECOND) == 2
  {}

  /** 2^47 + 1 validators at 65_536 ns a vote take 2^64 ns, which is reported as none:
      one second on eight cores is said to be enough. */
  lemma RoundOverflows()
    ensures var validators := 0x8000_0000_0001;
            && Votes(validators) * 65_536 == TWO_64
            && SerialTime(validators, 65_536) == 0
            && AssessRound(validators, 1.0, 65_536, 8).fits
            && !(Votes(validators) * 65_536 < RoundBudget(1.0) * Cores(8))
  {}

  /** Fitting survives fewer validators, faster verification, more cores and longer rounds. */
  lemma FittingIsMonotone(validators: int, roundSeconds: real, verify: nat, cores: int,
                          fewer: int, longer: real, faster: nat, more: int)
    requires IsInt64(validators) && IsInt64(Votes(validators) * verify)
    requires -TWO_63 / 2 < fewer <= validators && roundSeconds <= longer && faster <= verify && cores <= more
    requires IsInt64(RoundBudget(roundSeconds)) && IsInt64(RoundBudget(longer)) && IsInt64(cores) && IsInt64(more)
    requires AssessRound(validators, roundSeconds, verify, cores).fits
    ensures AssessRound(fewer, longer, faster, more).fits
  {
    RoundFitsIff(validators, roundSeconds, verify, cores);
    SmallerProduct(Votes(fewer), faster, Votes(validators), verify);
    TruncRealMonotone(roundSeconds * SECOND, longer * SECOND);
    LargerAllowance(RoundBudget(roundSeconds), Cores(cores), RoundBudget(longer), Cores(more));
    RoundFitsIff(fewer, longer, faster, more);
  }

  lemma SmallerProduct(a: nat, b: nat, a': nat, b': nat)
    requires a <= a' && b <= b'
    ensures 0 <= a * b <= a' * b'
  {}

  lemma LargerAllowance(budget: int, cores: nat, budget': int, cores': nat)
    requires budget <= budget' && cores <= cores' && 0 < budget * cores
    ensures budget * cores <= budget' * cores'
  {}
}
