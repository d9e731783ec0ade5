/** What a light client downloads, the gossip estimate, and the measured sizes
    of the mitigation table. */
module Migration {
  import opened GoInt
  import opened Varint
  import opened Wire
  import opened Measure
  import opened Handshake

  const VOTING_POWER: nat := 1_000_000

  datatype Validator = Validator(address: seq<Byte>, key: seq<Byte>, votingPower: nat, proposerPriority: nat)

  function ValidatorProto(v: Validator): Message {
    Bytes(1, v.address, Sub(2, PublicKeyProto(v.key), Scalar(3, v.votingPower, Scalar(4, v.proposerPriority, End))))
  }

  /** A negative int64 goes on the wire as its two's complement, so the field
      holds the total modulo 2^64. */
  function ValidatorSetProto(vals: seq<Validator>, total: nat): Message {
    if vals == [] then Scalar(3, total % TWO_64, End)
    else Sub(1, ValidatorProto(vals[0]), ValidatorSetProto(vals[1..], total))
  }

  function TotalPowerFieldSize(total: nat): nat {
    if total % TWO_64 == 0 then 0 else 1 + Len(total % TWO_64)
  }

  function ValidatorSize(keyBytes: nat): nat {
    26 + SubmessageSize(SubmessageSize(keyBytes))
  }

  function ValidatorSetSize(validators: nat, keyBytes: nat): nat {
    Repeated(validators, SubmessageSize(ValidatorSize(keyBytes))) + TotalPowerFieldSize(validators * VOTING_POWER)
  }

  predicate MeasuredValidator(v: Validator, keyBytes: nat) {
    && |v.address| == ADDRESS_WIDTH && |v.key| == keyBytes
    && v.votingPower == VOTING_POWER && v.proposerPriority == 0
  }

  lemma ValidatorSizeClosedForm(v: Validator, keyBytes: nat)
    requires MeasuredValidator(v, keyBytes)
    ensures Size(ValidatorProto(v)) == ValidatorSize(keyBytes)
  {
    LenOf(VOTING_POWER);
    var power := Scalar(3, v.votingPower, Scalar(4, v.proposerPriority, End));
    assert Size(power) == 4;
    FieldSize(2, [], power);
    FieldSize(1, v.address, Sub(2, PublicKeyProto(v.key), power));
  }

  /** A validator set costs a fixed amount per validator, whatever the key and
      address bytes are, plus the varint of its total power. */
  lemma {:induction false} ValidatorSetClosedForm(vals: seq<Validator>, total: nat, keyBytes: nat)
    requires forall v :: v in vals ==> MeasuredValidator(v, keyBytes)
    ensures Size(ValidatorSetProto(vals, total))
         == Repeated(|vals|, SubmessageSize(ValidatorSize(keyBytes))) + TotalPowerFieldSize(total)
  {
    if vals != [] {
      ValidatorSizeClosedForm(vals[0], keyBytes);
      ValidatorSetClosedForm(vals[1..], total, keyBytes);
      FieldSize(1, [], ValidatorSetProto(vals[1..], total));
      OneMoreCopy(|vals| - 1, SubmessageSize(ValidatorSize(keyBytes)));
    }
  }

  /** The power field never exceeds eleven bytes, and ten unless the total has
      overflowed int64. */
  lemma TotalPowerFieldBound(total: nat)
    ensures TotalPowerFieldSize(total) <= 11
    ensures IsInt64(total) ==> TotalPowerFieldSize(total) <= 10
  {
    PowersOf128();
    LenAtMost(total % TWO_64, 10);
    if IsInt64(total) {
      LenAtMost(total, 9);
    }
  }

  lemma PowersOf128()
    ensures Pow128(9) == TWO_63 && Pow128(10) == 128 * TWO_63
  {}

  datatype ClientUpdate = ClientUpdate(validators: nat, commitBytes: nat, validatorSetBytes: nat, totalBytes: nat)

  /** Fills one validator per index and marshals the set beside a commit of the same size. */
  method MeasureClientUpdate(scheme: Scheme, validators: nat) returns (u: ClientUpdate)
    ensures u.validators == validators
    ensures u.commitBytes == CommitSize(validators, scheme.sigBytes)
    ensures u.validatorSetBytes == ValidatorSetSize(validators, scheme.pubKeyBytes)
    ensures u.totalBytes == u.commitBytes + u.validatorSetBytes
    ensures u.validatorSetBytes
         == Repeated(validators, SubmessageSize(26 + SubmessageSize(SubmessageSize(scheme.pubKeyBytes))))
            + TotalPowerFieldSize(validators * 1_000_000)
  {
    var commitBytes := CommitBytes(validators, scheme.sigBytes);
    var vals := new Validator[validators](_ => Validator([], [], 0, 0));
    for i := 0 to validators
      invariant forall j :: 0 <= j < i ==> MeasuredValidator(vals[j], scheme.pubKeyBytes)
    {
      vals[i] := Validator(ValidatorAddress(i), Repeat(0xA5, scheme.pubKeyBytes), VOTING_POWER, 0);
    }
    var set_ := ValidatorSetProto(vals[..], validators * VOTING_POWER);
    ValidatorSetClosedForm(vals[..], validators * VOTING_POWER, scheme.pubKeyBytes);
    MarshalledSize(set_);
    var setBytes := |Marshal(set_)|;
    u := ClientUpdate(validators, commitBytes, setBytes, commitBytes + setBytes);
  }

  /** For a non-empty set, a longer key strictly enlarges the validator set and a
      longer signature strictly enlarges the commit, through every nested prefix. */
  lemma ClientUpdateGrows(validators: nat, shortSig: nat, longSig: nat, shortKey: nat, longKey: nat)
    requires validators > 0
    ensures shortSig < longSig ==> CommitSize(validators, shortSig) < CommitSize(validators, longSig)
    ensures shortKey < longKey ==> ValidatorSetSize(validators, shortKey) < ValidatorSetSize(validators, longKey)
  {
    if shortSig < longSig {
      CommitSizeGrows(validators, shortSig, longSig);
    }
    if shortKey < longKey {
      FieldGrows(shortKey, longKey);
      FieldGrows(SubmessageSize(shortKey), SubmessageSize(longKey));
      FieldGrows(ValidatorSize(shortKey), ValidatorSize(longKey));
      ScaleStrictly(validators, SubmessageSize(ValidatorSize(shortKey)), SubmessageSize(ValidatorSize(longKey)));
    }
  }

  /** Joining two sets never costs more than the two apart. It costs at most ten
      bytes less while the joint power fits int64, and at most both power fields
      less once it overflows. */
  lemma ValidatorSetIsAlmostAdditive(m: nat, n: nat, keyBytes: nat)
    ensures ValidatorSetSize(m + n, keyBytes) <= ValidatorSetSize(m, keyBytes) + ValidatorSetSize(n, keyBytes)
    ensures ValidatorSetSize(m + n, keyBytes) >= ValidatorSetSize(m, keyBytes) + ValidatorSetSize(n, keyBytes) - 22
    ensures IsInt64((m + n) * VOTING_POWER) ==>
              ValidatorSetSize(m + n, keyBytes) >= ValidatorSetSize(m, keyBytes) + ValidatorSetSize(n, keyBytes) - 10
  {
    AddCounts(m, n, SubmessageSize(ValidatorSize(keyBytes)));
    JointPowerField(m * VOTING_POWER, n * VOTING_POWER);
  }

  lemma JointPowerField(a: nat, b: nat)
    ensures var apart := TotalPowerFieldSize(a) + TotalPowerFieldSize(b);
            && apart - 22 <= TotalPowerFieldSize(a + b) <= apart
            && (IsInt64(a + b) ==> apart - 10 <= TotalPowerFieldSize(a + b))
  {
    TotalPowerFieldBound(a);
    TotalPowerFieldBound(b);
    JointModulo(a, b);
    JointLength(a % TWO_64, b % TWO_64, (a + b) % TWO_64);
    PartLength(a, b);
    PartLength(b, a);
    JointLength(a, b, a + b);
  }

  lemma JointModulo(a: nat, b: nat)
    ensures (a + b) % TWO_64 <= a % TWO_64 + b % TWO_64
    ensures a % TWO_64 == 0 ==> (a + b) % TWO_64 == b % TWO_64
    ensures b % TWO_64 == 0 ==> (a + b) % TWO_64 == a % TWO_64
    ensures IsInt64(a + b) ==> a % TWO_64 == a && b % TWO_64 == b && (a + b) % TWO_64 == a + b
  {}

  lemma JointLength(x: nat, y: nat, joint: nat)
    requires joint <= x + y
    ensures Len(joint) <= Len(x) + Len(y)
  {
    LenMonotone(joint, x + y);
    LenSubadditive(x, y);
  }

  lemma PartLength(x: nat, y: nat)
    ensures Len(x) <= Len(x + y)
  {
    LenMonotone(x, x + y);
  }

  lemma AddCounts(m: nat, n: nat, each: nat)
    ensures Repeated(m + n, each) == Repeated(m, each) + Repeated(n, each)
  {}

  lemma {:induction false} LenSubadditive(a: nat, b: nat)
    ensures Len(a + b) <= Len(a) + Len(b)
  {
    if a + b >= 128 {
      LenSuccessor(a / 128 + b / 128);
      LenMonotone((a + b) / 128, a / 128 + b / 128 + 1);
      if a >= 128 {
        if b >= 128 {
          LenSubadditive(a / 128, b / 128);
        }
      }
    }
  }

  lemma {:induction false} LenSuccessor(n: nat)
    ensures Len(n + 1) <= Len(n) + 1
  {
    if n >= 127 {
      if n % 128 == 127 && n >= 128 {
        LenSuccessor(n / 128);
      }
    }
  }

  /** The published client updates at 100 validators. */
  lemma PublishedClientUpdates()
    ensures CommitSize(100, 64) == 10_578 && ValidatorSetSize(100, 32) == 6_405
    ensures CommitSize(100, 3309) == 335_278 && ValidatorSetSize(100, 1952) == 198_705
    ensures CommitSize(100, 3381) == 342_478 && ValidatorSetSize(100, 1992) == 202_705
    ensures CommitSize(100, 11_173) == 1_121_678
    ensures CommitSize(100, 64) + ValidatorSetSize(100, 32) == 16_983
    ensures CommitSize(100, 3309) + ValidatorSetSize(100, 1952) == 533_983
    ensures CommitSize(100, 3381) + ValidatorSetSize(100, 1992) == 545_183
    ensures CommitSize(100, 11_173) + ValidatorSetSize(100, 1992) == 1_324_383
  {
    LenOf(64);
    LenOf(CommitSigSize(64));
    LenOf(3309);
    LenOf(CommitSigSize(3309));
    LenOf(3381);
    LenOf(CommitSigSize(3381));
    LenOf(11_173);
    LenOf(CommitSigSize(11_173));
    LenOf(100 * VOTING_POWER);
    PublishedValidator(32, 62);
    PublishedValidator(1952, 1984);
    PublishedValidator(1992, 2024);
  }

  lemma PublishedValidator(keyBytes: nat, size: nat)
    requires (keyBytes == 32 && size == 62) || (128 <= keyBytes <= 10_000 && size == keyBytes + 32)
    ensures ValidatorSize(keyBytes) == size
    ensures SubmessageSize(size) == if size < 128 then size + 2 else size + 3
  {
    LenOf(keyBytes);
    LenOf(SubmessageSize(keyBytes));
    LenOf(size);
  }

  // ---------- gossip ----------

  datatype GossipEstimate = GossipEstimate(upperBoundBytes: int, suppression: real, modelledBytes: int)

  function Clamp(x: real): real {
    if x < 0.0 then 0.0 else if x > 1.0 then 1.0 else x
  }

  function Part(whole: real, suppressed: real): real {
    whole * (1.0 - suppressed)
  }

  function Modelled(upper: int, suppression: real): int {
    TruncReal(Part(upper as real, Clamp(suppression)))
  }

  function EstimateGossip(votePerValidator: int, validators: int, peers: int, suppression: real): GossipEstimate {
    var upper := Wrap64(Wrap64(validators * votePerValidator) * peers);
    GossipEstimate(upper, Clamp(suppression), Modelled(upper, suppression))
  }

  lemma PartOfWhole(whole: real, less: real, more: real)
    requires whole >= 0.0 && 0.0 <= less <= more <= 1.0
    ensures 0.0 <= Part(whole, more) <= Part(whole, less) <= whole
  {}

  lemma WholeAndNothing(whole: real)
    ensures Part(whole, 0.0) == whole && Part(whole, 1.0) == 0.0
  {}

  lemma ModelledIsBounded(upper: nat, less: real, more: real)
    requires less <= more
    ensures 0 <= Modelled(upper, more) <= Modelled(upper, less) <= upper
    ensures less <= 0.0 ==> Modelled(upper, less) == upper
    ensures more >= 1.0 ==> Modelled(upper, more) == 0
  {
    PartOfWhole(upper as real, Clamp(less), Clamp(more));
    WholeAndNothing(upper as real);
    TruncOrdered(upper, Part(upper as real, Clamp(more)), Part(upper as real, Clamp(less)));
  }

  lemma TruncOrdered(n: nat, x: real, y: real)
    requires 0.0 <= x <= y <= n as real
    ensures 0 <= TruncReal(x) <= TruncReal(y) <= n
  {}

  /** Wrapping after each multiplication wraps the whole product. */
  lemma WrapOnce(a: int, p: int)
    ensures Wrap64(Wrap64(a) * p) == Wrap64(a * p)
  {
    var q := (a - Wrap64(a)) / TWO_64;
    assert a == Wrap64(a) + q * TWO_64;
    Spread(Wrap64(a), q, p);
    WrapShift(Wrap64(a) * p, q * p);
  }

  lemma Spread(r: int, q: int, p: int)
    ensures (r + q * TWO_64) * p == r * p + (q * p) * TWO_64
  {}

  lemma WrapShift(x: int, k: int)
    ensures Wrap64(x + k * TWO_64) == Wrap64(x)
  {
    var d := (x - Wrap64(x)) / TWO_64;
    var e := (x + k * TWO_64 - Wrap64(x + k * TWO_64)) / TWO_64;
    assert Wrap64(x + k * TWO_64) - Wrap64(x) == (k + d - e) * TWO_64;
  }

  /** The whole bytes of what a suppression leaves. */
  predicate IsShare(bytes: int, whole: int, suppressed: real) {
    bytes as real <= whole as real * (1.0 - suppressed) < (bytes + 1) as real
  }

  lemma WholeShare(bytes: int, whole: int)
    ensures IsShare(bytes, whole, 0.0) <==> bytes == whole
  {}

  /** The modelled traffic is the whole bytes of the unsuppressed share, for a
      suppression inside the unit interval; one outside counts as its nearer end. */
  lemma GossipShare(votePerValidator: int, validators: int, peers: int, s: real)
    ensures var e := EstimateGossip(votePerValidator, validators, peers, s);
            && (0.0 <= s <= 1.0 ==>
                  && e.suppression == s
                  && (e.upperBoundBytes >= 0 ==>
                        IsShare(e.modelledBytes, e.upperBoundBytes, s))
                  && (e.upperBoundBytes < 0 ==>
                        IsShare(-e.modelledBytes, -e.upperBoundBytes, s)))
            && (s < 0.0 ==> e == EstimateGossip(votePerValidator, validators, peers, 0.0))
            && (s > 1.0 ==> e == EstimateGossip(votePerValidator, validators, peers, 1.0))
  {
    var e := EstimateGossip(votePerValidator, validators, peers, s);
    if 0.0 <= s <= 1.0 {
      PartExact(e.upperBoundBytes, s);
    }
  }

  lemma PartExact(upper: int, s: real)
    requires 0.0 <= s <= 1.0
    ensures upper >= 0 ==> IsShare(Modelled(upper, s), upper, s)
    ensures upper < 0 ==> IsShare(-Modelled(upper, s), -upper, s)
  {
    var share := Part(upper as real, s);
    ShareSign(upper as real, 1.0 - s);
    NegatedShare(upper as real, 1.0 - s);
    assert Modelled(upper, s) == TruncReal(share);
    TruncRealExact(share, Modelled(upper, s));
  }

  lemma NegatedShare(x: real, k: real)
    ensures (-x) * k == -(x * k)
  {}

  lemma ShareSign(x: real, k: real)
    requires k >= 0.0
    ensures x >= 0.0 ==> x * k >= 0.0
    ensures x <= 0.0 ==> x * k <= 0.0
  {}

  /** For every suppression the modelled traffic lies between nothing and the
      broadcast bound, falls as suppression rises and meets both ends, exactly when
      the product of validators, votes and peers does not wrap below zero; it is
      always the unsuppressed share of that bound. */
  lemma GossipIsBounded(votePerValidator: int, validators: int, peers: int, less: real, more: real)
    requires less <= more
    ensures var low := EstimateGossip(votePerValidator, validators, peers, more);
            var high := EstimateGossip(votePerValidator, validators, peers, less);
            && high.upperBoundBytes == low.upperBoundBytes == Wrap64(validators * votePerValidator * peers)
            && (0 <= low.modelledBytes <= high.modelledBytes <= high.upperBoundBytes
                <==> Wrap64(validators * votePerValidator * peers) >= 0)
            && (less <= 0.0 ==> high.modelledBytes == high.upperBoundBytes)
            && (more >= 1.0 ==> low.modelledBytes == 0)
            && (0.0 <= less <= 1.0 && high.upperBoundBytes >= 0 ==>
                  IsShare(high.modelledBytes, high.upperBoundBytes, less))
  {
    var upper := Wrap64(validators * votePerValidator * peers);
    WrapOnce(validators * votePerValidator, peers);
    WholeAndNothing(upper as real);
    GossipShare(votePerValidator, validators, peers, less);
    if upper >= 0 {
      ModelledIsBounded(upper, less, more);
    }
  }

  /** The bound is the true broadcast traffic exactly when that traffic fits int64;
      otherwise it understates it, and the modelled bytes are not the unsuppressed
      share of the traffic at some suppression. */
  lemma GossipSoundIff(votePerValidator: nat, validators: nat, peers: nat, suppression: real)
    ensures var traffic := validators * votePerValidator * peers;
            var upper := EstimateGossip(votePerValidator, validators, peers, suppression).upperBoundBytes;
            && (upper == traffic <==> IsInt64(traffic))
            && (upper < traffic <==> !IsInt64(traffic))
            && ((forall s: real | 0.0 <= s <= 1.0 ::
                   IsShare(EstimateGossip(votePerValidator, validators, peers, s).modelledBytes, traffic, s))
                <==> IsInt64(traffic))
  {
    var traffic := validators * votePerValidator * peers;
    WrapOnce(validators * votePerValidator, peers);
    ProductNonNegative(validators, votePerValidator);
    ProductNonNegative(validators * votePerValidator, peers);
    if IsInt64(traffic) {
      forall s: real | 0.0 <= s <= 1.0
        ensures IsShare(EstimateGossip(votePerValidator, validators, peers, s).modelledBytes, traffic, s)
      {
        GossipShare(votePerValidator, validators, peers, s);
      }
    } else {
      NothingSuppressed(Wrap64(traffic));
      WholeShare(Wrap64(traffic), traffic);
      assert !IsShare(EstimateGossip(votePerValidator, validators, peers, 0.0).modelledBytes, traffic, 0.0);
    }
  }

  lemma ProductNonNegative(a: nat, b: nat)
    ensures a * b >= 0
  {}

  lemma NothingSuppressed(upper: int)
    ensures Modelled(upper, 0.0) == upper
  {
    WholeAndNothing(upper as real);
  }

  /** 100_000 validators at the vote cost of ML-DSA-65 and 20 billion peers pass
      2^63 bytes, and the broadcast bound comes out negative. */
  lemma GossipOverflows()
    ensures var e := EstimateGossip(6854, 100_000, 20_000_000_000, 0.0);
            e.modelledBytes == e.upperBoundBytes < 0
  {
    GossipIsBounded(6854, 100_000, 20_000_000_000, 0.0, 0.0);
  }

  /** One validator and more than 2^64 bytes of traffic: the bound comes out as 5560. */
  lemma GossipUnderstates()
    ensures EstimateGossip(6854, 1, 2_691_383_728_291_444, 0.0).upperBoundBytes == 5560
    ensures 6854 * 2_691_383_728_291_444 > TWO_64
  {}

  // ---------- mitigations ----------

  /** The shipped round cost and the cost with the BlockID replaced by a four-byte reference. */
  method Mitigations(scheme: Scheme, validators: nat) returns (shipped: int, compact: int, committee: int)
    ensures shipped == committee == RoundTripCost(scheme.sigBytes)
    ensures 0 < compact == shipped - 132
  {
    var sizes := Measure.Measure(scheme, [validators]);
    shipped := sizes.RoundTripBytes();
    var blockIdCost := sizes.prevoteBlock - sizes.prevoteNil;
    compact := shipped - 2 * blockIdCost + 2 * 4;
    committee := shipped;
    RoundTripGrows(scheme.sigBytes, scheme.sigBytes + 1);
  }
}
