/** Attribution of a vote's bytes to its parts by marshalling it again with one
    part left out. */
module Breakdown {
  import opened Wire
  import opened Measure

  datatype Field = Field(name: string, bytes: int)

  function PartialVote(sigBytes: nat, withSig: bool, withBlockId: bool, withAddress: bool): Vote {
    Vote(PRECOMMIT, HEIGHT, 0, if withBlockId then SampleBlockId() else NO_BLOCK, FIXED_TIMESTAMP,
         if withAddress then ValidatorAddress(1) else [], 0, if withSig then Repeat(0xA5, sigBytes) else [])
  }

  function Build(sigBytes: nat, withSig: bool, withBlockId: bool, withAddress: bool): nat {
    |Marshal(VoteProto(PartialVote(sigBytes, withSig, withBlockId, withAddress)))|
  }

  lemma PartsOf(v: Vote, withBlockId: bool)
    requires FramedVote(v)
    requires if withBlockId then IsFullBlock(v.blockId) else v.blockId == NO_BLOCK
    ensures |Marshal(VoteProto(v))| == 23 + (if withBlockId then 70 else 0)
                                          + BytesFieldSize(|v.address|) + BytesFieldSize(|v.signature|)
  {
    VoteIsSumOfParts(v);
    BlockFieldSize(v.blockId);
  }

  /** The parts do not interact: with any combination of them present, each adds
      the same number of bytes to a 23-byte frame. So the difference a part makes
      is the same whatever else the vote carries. */
  lemma PartsAreIndependent(sigBytes: nat, withSig: bool, withBlockId: bool, withAddress: bool)
    ensures Build(sigBytes, withSig, withBlockId, withAddress)
         == 23 + (if withSig then BytesFieldSize(sigBytes) else 0)
               + (if withBlockId then 70 else 0)
               + (if withAddress then 22 else 0)
  {
    PartsOf(PartialVote(sigBytes, withSig, withBlockId, withAddress), withBlockId);
  }

  function Total(fields: seq<Field>): int {
    if fields == [] then 0 else fields[0].bytes + Total(fields[1..])
  }

  lemma TotalOfFour(f: seq<Field>)
    requires |f| == 4
    ensures Total(f) == f[0].bytes + f[1].bytes + f[2].bytes + f[3].bytes
  {
    assert f[1..][1..] == f[2..] && f[2..][1..] == f[3..] && f[3..][1..] == [];
    assert Total(f[3..]) == f[3].bytes;
    assert Total(f[2..]) == f[2].bytes + f[3].bytes;
    assert Total(f[1..]) == f[1].bytes + Total(f[2..]);
  }

  /** The four parts add up to the vote, the remainder is 23 bytes for every
      scheme, and the total is the precommit `Measure` reports. */
  method Breakdown(scheme: Scheme) returns (fields: seq<Field>, total: int)
    ensures |fields| == 4 && Total(fields) == total
    ensures fields[0] == Field("signature", BytesFieldSize(scheme.sigBytes))
    ensures fields[1] == Field("BlockID (hash + part set header)", 70)
    ensures fields[2] == Field("validator address", 22)
    ensures fields[3] == Field("type, height, round, timestamp, index, framing", 23)
    ensures total == VoteSize(true, scheme.sigBytes)
  {
    var full := Build(scheme.sigBytes, true, true, true);
    var noSig := Build(scheme.sigBytes, false, true, true);
    var noBlockId := Build(scheme.sigBytes, true, false, true);
    var noAddress := Build(scheme.sigBytes, true, true, false);
    PartsAreIndependent(scheme.sigBytes, true, true, true);
    PartsAreIndependent(scheme.sigBytes, false, true, true);
    PartsAreIndependent(scheme.sigBytes, true, false, true);
    PartsAreIndependent(scheme.sigBytes, true, true, false);
    var sigBytes, blockIdBytes, addressBytes := full - noSig, full - noBlockId, full - noAddress;
    var rest := full - sigBytes - blockIdBytes - addressBytes;
    fields := [Field("signature", sigBytes),
               Field("BlockID (hash + part set header)", blockIdBytes),
               Field("validator address", addressBytes),
               Field("type, height, round, timestamp, index, framing", rest)];
    total := full;
    TotalOfFour(fields);
  }
}
