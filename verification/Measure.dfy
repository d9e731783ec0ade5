/** Votes and commits as the tool builds them, the messages they marshal to, and
    the wire sizes reported for a signature scheme. */
module Measure {
  import opened Varint
  import opened Wire

  const ADDRESS_WIDTH: nat := 20
  const DIGEST_WIDTH: nat := 32
  const HEIGHT: nat := 1_000_000
  const PREVOTE: nat := 1
  const PRECOMMIT: nat := 2
  const FLAG_COMMIT: nat := 2

  datatype Scheme = Scheme(name: string, sigBytes: nat, pubKeyBytes: nat)

  datatype BlockId = BlockId(hash: seq<Byte>, partsTotal: nat, partsHash: seq<Byte>)

  datatype Timestamp = Timestamp(seconds: nat, nanos: nat)

  datatype Vote = Vote(voteType: nat, height: nat, round: nat, blockId: BlockId, timestamp: Timestamp,
                       address: seq<Byte>, index: nat, signature: seq<Byte>)

  datatype CommitSig = CommitSig(flag: nat, address: seq<Byte>, timestamp: Timestamp, signature: seq<Byte>)

  datatype Commit = Commit(height: nat, round: nat, blockId: BlockId, signatures: seq<CommitSig>)

  const NO_BLOCK := BlockId([], 0, [])

  /** 2026-09-02 12:00:00.123456789 UTC. */
  const FIXED_TIMESTAMP := Timestamp(1_788_350_400, 123_456_789)

  // ---------- the messages ----------

  function PartSetHeaderProto(b: BlockId): Message {
    Scalar(1, b.partsTotal, Bytes(2, b.partsHash, End))
  }

  function BlockIdProto(b: BlockId): Message {
    Bytes(1, b.hash, Sub(2, PartSetHeaderProto(b), End))
  }

  function TimestampProto(t: Timestamp): Message {
    Scalar(1, t.seconds, Scalar(2, t.nanos, End))
  }

  function VoteProto(v: Vote): Message {
    Scalar(1, v.voteType,
      Scalar(2, v.height,
        Scalar(3, v.round,
          Sub(4, BlockIdProto(v.blockId),
            Sub(5, TimestampProto(v.timestamp),
              Bytes(6, v.address,
                Scalar(7, v.index,
                  Bytes(8, v.signature, End))))))))
  }

  function CommitSigProto(s: CommitSig): Message {
    Scalar(1, s.flag, Bytes(2, s.address, Sub(3, TimestampProto(s.timestamp), Bytes(4, s.signature, End))))
  }

  function SignaturesProto(sigs: seq<CommitSig>): Message {
    if sigs == [] then End else Sub(4, CommitSigProto(sigs[0]), SignaturesProto(sigs[1..]))
  }

  function CommitProto(c: Commit): Message {
    Scalar(1, c.height, Scalar(2, c.round, Sub(3, BlockIdProto(c.blockId), SignaturesProto(c.signatures))))
  }

  // ---------- closed forms ----------

  /** The bytes an optional length-delimited field of `length` bytes takes. */
  function BytesFieldSize(length: nat): nat {
    if length == 0 then 0 else 1 + Len(length) + length
  }

  /** The bytes of a submessage of `length` bytes, tag and prefix included. */
  function SubmessageSize(length: nat): nat {
    1 + Len(length) + length
  }

  function CommitSigSize(sigBytes: nat): nat {
    37 + BytesFieldSize(sigBytes)
  }

  function VoteSize(withBlock: bool, sigBytes: nat): nat {
    (if withBlock then 115 else 45) + BytesFieldSize(sigBytes)
  }

  /** `count` items of `size` bytes each. */
  function Repeated(count: nat, size: nat): nat {
    count * size
  }

  function CommitSize(validators: nat, sigBytes: nat): nat {
    78 + Repeated(validators, SubmessageSize(CommitSigSize(sigBytes)))
  }

  lemma {:induction false} LenOf(n: nat)
    ensures n < 128 ==> Len(n) == 1
    ensures 128 <= n < 16_384 ==> Len(n) == 2
    ensures 16_384 <= n < 2_097_152 ==> Len(n) == 3
    ensures 2_097_152 <= n < 268_435_456 ==> Len(n) == 4
    ensures 268_435_456 <= n < 34_359_738_368 ==> Len(n) == 5
  {
    if n >= 128 {
      LenOf(n / 128);
    }
  }

  predicate IsFullBlock(b: BlockId) {
    |b.hash| == DIGEST_WIDTH && |b.partsHash| == DIGEST_WIDTH && b.partsTotal == 1
  }

  lemma BlockIdSize(b: BlockId)
    ensures IsFullBlock(b) ==> Size(BlockIdProto(b)) == 72
    ensures b == NO_BLOCK ==> Size(BlockIdProto(b)) == 2
  {
    var header := PartSetHeaderProto(b);
    if IsFullBlock(b) {
      assert Size(Bytes(2, b.partsHash, End)) == 34;
      assert Size(header) == 36;
      assert Size(Sub(2, header, End)) == 38;
    }
  }

  lemma BlockFieldSize(b: BlockId)
    ensures IsFullBlock(b) ==> SubmessageSize(Size(BlockIdProto(b))) == 74
    ensures b == NO_BLOCK ==> SubmessageSize(Size(BlockIdProto(b))) == 4
  {
    BlockIdSize(b);
    SmallSubmessage(Size(BlockIdProto(b)));
  }

  lemma SmallSubmessage(length: nat)
    ensures length < 128 ==> SubmessageSize(length) == length + 2
  {}

  lemma TimestampSize()
    ensures Size(TimestampProto(FIXED_TIMESTAMP)) == 11
  {}

  /** The fields every measured vote shares. */
  predicate FramedVote(v: Vote) {
    && v.voteType in {PREVOTE, PRECOMMIT}
    && v.height == HEIGHT && v.round == 0 && v.index == 0
    && v.timestamp == FIXED_TIMESTAMP
  }

  /** A vote as the tool builds it, with every byte of the digests, the address
      and the signature left open. */
  predicate MeasuredVote(v: Vote, withBlock: bool, sigBytes: nat) {
    && FramedVote(v)
    && (if withBlock then IsFullBlock(v.blockId) else v.blockId == NO_BLOCK)
    && |v.address| == ADDRESS_WIDTH
    && |v.signature| == sigBytes
  }

  lemma FieldSize(num: nat, data: seq<Byte>, rest: Message)
    requires num < 16
    ensures Size(Bytes(num, data, rest)) == BytesFieldSize(|data|) + Size(rest)
    ensures forall body :: Size(Sub(num, body, rest)) == SubmessageSize(Size(body)) + Size(rest)
  {}

  lemma VoteHeadSize(voteType: nat, rest: Message)
    requires voteType in {PREVOTE, PRECOMMIT}
    ensures Size(Scalar(1, voteType, Scalar(2, HEIGHT, Scalar(3, 0, rest)))) == 6 + Size(rest)
  {}

  /** A vote is the sum of its parts: six bytes of type and height, thirteen of
      timestamp, and a field each for the BlockID, the address and the signature. */
  lemma VoteIsSumOfParts(v: Vote)
    requires FramedVote(v)
    ensures |Marshal(VoteProto(v))| == 6 + SubmessageSize(Size(BlockIdProto(v.blockId))) + 13
                                       + BytesFieldSize(|v.address|) + BytesFieldSize(|v.signature|)
  {
    MarshalledSize(VoteProto(v));
    TimestampSize();
    var signature := Bytes(8, v.signature, End);
    var address := Bytes(6, v.address, signature);
    var timestamp := Sub(5, TimestampProto(v.timestamp), address);
    var block := Sub(4, BlockIdProto(v.blockId), timestamp);
    FieldSize(8, v.signature, End);
    FieldSize(6, v.address, signature);
    FieldSize(5, [], address);
    FieldSize(4, [], timestamp);
    VoteHeadSize(v.voteType, block);
  }

  lemma VoteSizeClosedForm(v: Vote, withBlock: bool, sigBytes: nat)
    requires MeasuredVote(v, withBlock, sigBytes)
    ensures |Marshal(VoteProto(v))| == VoteSize(withBlock, sigBytes)
  {
    VoteIsSumOfParts(v);
    BlockIdSize(v.blockId);
  }

  predicate MeasuredCommitSig(s: CommitSig, sigBytes: nat) {
    && s.flag == FLAG_COMMIT
    && |s.address| == ADDRESS_WIDTH
    && s.timestamp == FIXED_TIMESTAMP
    && |s.signature| == sigBytes
  }

  lemma CommitSigSizeClosedForm(s: CommitSig, sigBytes: nat)
    requires MeasuredCommitSig(s, sigBytes)
    ensures Size(CommitSigProto(s)) == CommitSigSize(sigBytes)
  {
    TimestampSize();
    var signature := Bytes(4, s.signature, End);
    assert Size(Sub(3, TimestampProto(s.timestamp), signature)) == 13 + Size(signature);
  }

  lemma OneMoreCopy(n: nat, each: nat)
    ensures each + Repeated(n, each) == Repeated(n + 1, each)
  {}

  lemma {:induction false} SignaturesSize(sigs: seq<CommitSig>, sigBytes: nat)
    requires forall s :: s in sigs ==> MeasuredCommitSig(s, sigBytes)
    ensures Size(SignaturesProto(sigs)) == Repeated(|sigs|, SubmessageSize(CommitSigSize(sigBytes)))
  {
    if sigs != [] {
      CommitSigSizeClosedForm(sigs[0], sigBytes);
      SignaturesSize(sigs[1..], sigBytes);
      var each := SubmessageSize(CommitSigSize(sigBytes));
      assert Size(SignaturesProto(sigs)) == each + Size(SignaturesProto(sigs[1..]));
      OneMoreCopy(|sigs| - 1, each);
    }
  }

  predicate MeasuredCommit(c: Commit, sigBytes: nat) {
    && c.height == HEIGHT && c.round == 0
    && IsFullBlock(c.blockId)
    && forall s :: s in c.signatures ==> MeasuredCommitSig(s, sigBytes)
  }

  /** The size of a commit is fixed by the validator count and the signature
      length, whatever the signature, address and digest bytes are. */
  lemma CommitSizeClosedForm(c: Commit, sigBytes: nat)
    requires MeasuredCommit(c, sigBytes)
    ensures |Marshal(CommitProto(c))| == CommitSize(|c.signatures|, sigBytes)
  {
    MarshalledSize(CommitProto(c));
    BlockIdSize(c.blockId);
    LenOf(HEIGHT);
    SignaturesSize(c.signatures, sigBytes);
  }

  lemma DoubleCount(n: nat, each: nat)
    ensures Repeated(2 * n, each) == 2 * Repeated(n, each)
    ensures Repeated(0, each) == 0
  {}

  /** Doubling the set doubles the commit except for its 78-byte header, and the
      header is all a commit without signatures holds. */
  lemma CommitDoubles(c: Commit, d: Commit, sigBytes: nat)
    requires MeasuredCommit(c, sigBytes) && MeasuredCommit(d, sigBytes)
    requires |d.signatures| == 2 * |c.signatures|
    ensures |Marshal(CommitProto(d))| == 2 * |Marshal(CommitProto(c))| - 78
    ensures |c.signatures| == 0 ==> |Marshal(CommitProto(c))| == 78
  {
    CommitSizeClosedForm(c, sigBytes);
    CommitSizeClosedForm(d, sigBytes);
    DoubleCount(|c.signatures|, SubmessageSize(CommitSigSize(sigBytes)));
  }

  // ---------- growth with the signature ----------

  lemma FieldGrows(short: nat, long: nat)
    requires short < long
    ensures BytesFieldSize(short) < BytesFieldSize(long)
    ensures SubmessageSize(short) < SubmessageSize(long)
  {
    LenMonotone(short, long);
  }

  /** A longer signature makes every vote longer. */
  lemma VoteGrows(v: Vote, w: Vote, withBlock: bool, short: nat, long: nat)
    requires short < long && MeasuredVote(v, withBlock, short) && MeasuredVote(w, withBlock, long)
    ensures |Marshal(VoteProto(v))| < |Marshal(VoteProto(w))|
  {
    VoteSizeClosedForm(v, withBlock, short);
    VoteSizeClosedForm(w, withBlock, long);
    FieldGrows(short, long);
  }

  lemma ScaleStrictly(n: nat, a: nat, b: nat)
    requires n > 0 && a < b
    ensures Repeated(n, a) < Repeated(n, b)
  {}

  lemma CommitSizeGrows(validators: nat, short: nat, long: nat)
    requires short < long && validators > 0
    ensures CommitSize(validators, short) < CommitSize(validators, long)
  {
    FieldGrows(short, long);
    FieldGrows(CommitSigSize(short), CommitSigSize(long));
    ScaleStrictly(validators, SubmessageSize(CommitSigSize(short)), SubmessageSize(CommitSigSize(long)));
  }

  /** A longer signature makes a commit of a non-empty set longer, through both
      levels of length prefix. */
  lemma CommitGrows(c: Commit, d: Commit, short: nat, long: nat)
    requires short < long && MeasuredCommit(c, short) && MeasuredCommit(d, long)
    requires |c.signatures| == |d.signatures| > 0
    ensures |Marshal(CommitProto(c))| < |Marshal(CommitProto(d))|
  {
    CommitSizeClosedForm(c, short);
    CommitSizeClosedForm(d, long);
    CommitSizeGrows(|c.signatures|, short, long);
  }

  // ---------- the measurements ----------

  function Repeat(b: Byte, count: nat): (bytes: seq<Byte>)
    ensures |bytes| == count
    ensures forall i :: 0 <= i < count ==> bytes[i] == b
  {
    seq(count, _ => b)
  }

  /** Stands in for SHA-256: only the width of a digest is used. */
  function Digest(text: string): (digest: seq<Byte>)
    ensures |digest| == DIGEST_WIDTH
  {
    Repeat(|text| % 256, DIGEST_WIDTH)
  }

  function SampleBlockId(): (b: BlockId)
    ensures IsFullBlock(b)
  {
    BlockId(Digest("pq-bandwidth-block-hash"), 1, Digest("pq-bandwidth-parts-hash"))
  }

  function ValidatorAddress(i: nat): (address: seq<Byte>)
    ensures |address| == ADDRESS_WIDTH
    ensures forall b :: b in address ==> 1 <= b <= 251
  {
    Repeat(i % 251 + 1, ADDRESS_WIDTH)
  }

  function SampleVote(voteType: nat, withBlock: bool, sigBytes: nat): Vote {
    Vote(voteType, HEIGHT, 0, if withBlock then SampleBlockId() else NO_BLOCK, FIXED_TIMESTAMP,
         ValidatorAddress(1), 0, Repeat(0xA5, sigBytes))
  }

  function VoteBytes(voteType: nat, withBlock: bool, sigBytes: nat): (size: nat)
    requires voteType in {PREVOTE, PRECOMMIT}
    ensures size == VoteSize(withBlock, sigBytes)
  {
    var v := SampleVote(voteType, withBlock, sigBytes);
    VoteSizeClosedForm(v, withBlock, sigBytes);
    |Marshal(VoteProto(v))|
  }

  function SampleCommitSig(i: nat, sigBytes: nat): CommitSig {
    CommitSig(FLAG_COMMIT, ValidatorAddress(i), FIXED_TIMESTAMP, Repeat(0xA5, sigBytes))
  }

  /** Fills one signature per validator, then marshals the commit. */
  method CommitBytes(validators: nat, sigBytes: nat) returns (size: nat)
    ensures size == CommitSize(validators, sigBytes)
  {
    var sigs := new CommitSig[validators](_ => SampleCommitSig(0, 0));
    for i := 0 to validators
      invariant forall j :: 0 <= j < i ==> MeasuredCommitSig(sigs[j], sigBytes)
    {
      sigs[i] := SampleCommitSig(i, sigBytes);
    }
    var commit := Commit(HEIGHT, 0, SampleBlockId(), sigs[..]);
    CommitSizeClosedForm(commit, sigBytes);
    size := |Marshal(CommitProto(commit))|;
  }

  datatype Sizes = Sizes(prevoteNil: nat, prevoteBlock: nat, precommitNil: nat, precommitBlock: nat,
                         commits: map<nat, nat>)
  {
    /** One prevote and one precommit for a block. */
    function RoundTripBytes(): nat {
      prevoteBlock + precommitBlock
    }
  }

  /** What one happy-path round costs a validator, as a function of the signature length. */
  function RoundTripCost(sigBytes: nat): nat {
    2 * VoteSize(true, sigBytes)
  }

  lemma RoundTripGrows(short: nat, long: nat)
    requires short < long
    ensures 230 <= RoundTripCost(short) < RoundTripCost(long)
  {
    FieldGrows(short, long);
  }

  /** Measures the four votes and one commit for each validator count. A vote for
      nil is 70 bytes shorter than one for a block; the vote type costs nothing. */
  method Measure(scheme: Scheme, validatorCounts: seq<nat>) returns (s: Sizes)
    ensures s.prevoteNil == s.precommitNil == 45 + BytesFieldSize(scheme.sigBytes)
    ensures s.prevoteBlock == s.precommitBlock == s.prevoteNil + 70
    ensures s.RoundTripBytes() == RoundTripCost(scheme.sigBytes)
    ensures forall n :: n in s.commits <==> n in validatorCounts
    ensures forall n :: n in s.commits ==> s.commits[n] == CommitSize(n, scheme.sigBytes)
  {
    s := Sizes(VoteBytes(PREVOTE, false, scheme.sigBytes), VoteBytes(PREVOTE, true, scheme.sigBytes),
               VoteBytes(PRECOMMIT, false, scheme.sigBytes), VoteBytes(PRECOMMIT, true, scheme.sigBytes), map[]);
    for i := 0 to |validatorCounts|
      invariant s.commits.Keys == set n | n in validatorCounts[..i]
      invariant forall n :: n in s.commits ==> s.commits[n] == CommitSize(n, scheme.sigBytes)
      invariant s.prevoteNil == s.precommitNil == VoteSize(false, scheme.sigBytes)
      invariant s.prevoteBlock == s.precommitBlock == VoteSize(true, scheme.sigBytes)
    {
      var n := validatorCounts[i];
      var size := CommitBytes(n, scheme.sigBytes);
      s := s.(commits := s.commits[n := size]);
    }
  }

  /** The published composite Ed25519 + ML-DSA-65 figures. */
  lemma PublishedCompositeFigures()
    ensures VoteSize(false, 3381) == 3429 && VoteSize(true, 3381) == 3499
    ensures CommitSize(32, 3381) == 109_646 && CommitSize(64, 3381) == 219_214 && CommitSize(128, 3381) == 438_350
  {}
}
