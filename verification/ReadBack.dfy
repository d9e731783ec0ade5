/** Reading votes and commits back from their bytes: an omitted field reads as
    zero or as the empty byte string, so leaving it out loses nothing. */
module ReadBack {
  import opened Varint
  import opened Wire
  import opened Measure

  /** The scalar of field `num`, zero when absent. */
  function IntField(records: seq<Record>, num: nat): nat {
    if records == [] then 0
    else if records[0].IntRecord? && records[0].num == num then records[0].value
    else IntField(records[1..], num)
  }

  /** The payload of the length-delimited field `num`, empty when absent. */
  function LenField(records: seq<Record>, num: nat): seq<Byte> {
    if records == [] then []
    else if records[0].LenRecord? && records[0].num == num then records[0].payload
    else LenField(records[1..], num)
  }

  /** Every payload of the repeated field `num`, in order. */
  function LenFields(records: seq<Record>, num: nat): seq<seq<Byte>> {
    if records == [] then []
    else (if records[0].LenRecord? && records[0].num == num then [records[0].payload] else [])
         + LenFields(records[1..], num)
  }

  lemma ReadScalar(num: nat, value: nat, rest: Message)
    requires IntField(Records(rest), num) == 0
    ensures IntField(Records(Scalar(num, value, rest)), num) == value
    ensures forall k :: k != num ==> IntField(Records(Scalar(num, value, rest)), k) == IntField(Records(rest), k)
    ensures forall k :: LenField(Records(Scalar(num, value, rest)), k) == LenField(Records(rest), k)
    ensures forall k :: LenFields(Records(Scalar(num, value, rest)), k) == LenFields(Records(rest), k)
  {}

  lemma ReadBytes(num: nat, data: seq<Byte>, rest: Message)
    requires LenField(Records(rest), num) == []
    ensures LenField(Records(Bytes(num, data, rest)), num) == data
    ensures forall k :: k != num ==> LenField(Records(Bytes(num, data, rest)), k) == LenField(Records(rest), k)
    ensures forall k :: IntField(Records(Bytes(num, data, rest)), k) == IntField(Records(rest), k)
    ensures forall k :: k != num ==> LenFields(Records(Bytes(num, data, rest)), k) == LenFields(Records(rest), k)
  {}

  lemma ReadSub(num: nat, body: Message, rest: Message)
    ensures LenField(Records(Sub(num, body, rest)), num) == Marshal(body)
    ensures forall k :: k != num ==> LenField(Records(Sub(num, body, rest)), k) == LenField(Records(rest), k)
    ensures forall k :: IntField(Records(Sub(num, body, rest)), k) == IntField(Records(rest), k)
    ensures LenFields(Records(Sub(num, body, rest)), num) == [Marshal(body)] + LenFields(Records(rest), num)
    ensures forall k :: k != num ==> LenFields(Records(Sub(num, body, rest)), k) == LenFields(Records(rest), k)
  {}

  // ---------- readers ----------

  function Fields(bytes: seq<Byte>): seq<Record> {
    match Parse(bytes)
    case None => []
    case Some(records) => records
  }

  function ReadTimestamp(bytes: seq<Byte>): Timestamp {
    var f := Fields(bytes);
    Timestamp(IntField(f, 1), IntField(f, 2))
  }

  function ReadBlockId(bytes: seq<Byte>): BlockId {
    var f := Fields(bytes);
    var parts := Fields(LenField(f, 2));
    BlockId(LenField(f, 1), IntField(parts, 1), LenField(parts, 2))
  }

  function ReadVote(bytes: seq<Byte>): Vote {
    var f := Fields(bytes);
    Vote(IntField(f, 1), IntField(f, 2), IntField(f, 3), ReadBlockId(LenField(f, 4)), ReadTimestamp(LenField(f, 5)),
         LenField(f, 6), IntField(f, 7), LenField(f, 8))
  }

  function ReadCommitSig(bytes: seq<Byte>): CommitSig {
    var f := Fields(bytes);
    CommitSig(IntField(f, 1), LenField(f, 2), ReadTimestamp(LenField(f, 3)), LenField(f, 4))
  }

  function ReadSignatures(payloads: seq<seq<Byte>>): seq<CommitSig> {
    if payloads == [] then [] else [ReadCommitSig(payloads[0])] + ReadSignatures(payloads[1..])
  }

  function ReadCommit(bytes: seq<Byte>): Commit {
    var f := Fields(bytes);
    Commit(IntField(f, 1), IntField(f, 2), ReadBlockId(LenField(f, 3)), ReadSignatures(LenFields(f, 4)))
  }

  // ---------- round trips ----------

  lemma TimestampRoundTrip(t: Timestamp)
    ensures ReadTimestamp(Marshal(TimestampProto(t))) == t
  {
    ParseMarshal(TimestampProto(t));
    ReadScalar(2, t.nanos, End);
    ReadScalar(1, t.seconds, Scalar(2, t.nanos, End));
  }

  lemma BlockIdRoundTrip(b: BlockId)
    ensures ReadBlockId(Marshal(BlockIdProto(b))) == b
  {
    var header := PartSetHeaderProto(b);
    ParseMarshal(header);
    ReadBytes(2, b.partsHash, End);
    ReadScalar(1, b.partsTotal, Bytes(2, b.partsHash, End));
    ParseMarshal(BlockIdProto(b));
    ReadSub(2, header, End);
    ReadBytes(1, b.hash, Sub(2, header, End));
  }

  /** Every vote reads back from its bytes, whatever fields are zero or empty. */
  lemma VoteRoundTrip(v: Vote)
    ensures ReadVote(Marshal(VoteProto(v))) == v
  {
    ParseMarshal(VoteProto(v));
    BlockIdRoundTrip(v.blockId);
    TimestampRoundTrip(v.timestamp);
    var signature := Bytes(8, v.signature, End);
    ReadBytes(8, v.signature, End);
    var index := Scalar(7, v.index, signature);
    ReadScalar(7, v.index, signature);
    var address := Bytes(6, v.address, index);
    ReadBytes(6, v.address, index);
    var timestamp := Sub(5, TimestampProto(v.timestamp), address);
    ReadSub(5, TimestampProto(v.timestamp), address);
    var block := Sub(4, BlockIdProto(v.blockId), timestamp);
    ReadSub(4, BlockIdProto(v.blockId), timestamp);
    var round := Scalar(3, v.round, block);
    ReadScalar(3, v.round, block);
    var height := Scalar(2, v.height, round);
    ReadScalar(2, v.height, round);
    ReadScalar(1, v.voteType, height);
  }

  lemma CommitSigRoundTrip(s: CommitSig)
    ensures ReadCommitSig(Marshal(CommitSigProto(s))) == s
  {
    ParseMarshal(CommitSigProto(s));
    TimestampRoundTrip(s.timestamp);
    var signature := Bytes(4, s.signature, End);
    ReadBytes(4, s.signature, End);
    var timestamp := Sub(3, TimestampProto(s.timestamp), signature);
    ReadSub(3, TimestampProto(s.timestamp), signature);
    var address := Bytes(2, s.address, timestamp);
    ReadBytes(2, s.address, timestamp);
    ReadScalar(1, s.flag, address);
  }

  lemma {:induction false} SignaturesRoundTrip(sigs: seq<CommitSig>)
    ensures ReadSignatures(LenFields(Records(SignaturesProto(sigs)), 4)) == sigs
    ensures forall k :: IntField(Records(SignaturesProto(sigs)), k) == 0
    ensures forall k :: k != 4 ==> LenField(Records(SignaturesProto(sigs)), k) == []
  {
    if sigs != [] {
      SignaturesRoundTrip(sigs[1..]);
      CommitSigRoundTrip(sigs[0]);
      ReadSub(4, CommitSigProto(sigs[0]), SignaturesProto(sigs[1..]));
      var payloads := LenFields(Records(SignaturesProto(sigs)), 4);
      assert payloads[1..] == LenFields(Records(SignaturesProto(sigs[1..])), 4);
    }
  }

  /** Every commit reads back from its bytes, signature by signature. */
  lemma CommitRoundTrip(c: Commit)
    ensures ReadCommit(Marshal(CommitProto(c))) == c
  {
    ParseMarshal(CommitProto(c));
    BlockIdRoundTrip(c.blockId);
    var sigs := SignaturesProto(c.signatures);
    SignaturesRoundTrip(c.signatures);
    var block := Sub(3, BlockIdProto(c.blockId), sigs);
    ReadSub(3, BlockIdProto(c.blockId), sigs);
    var round := Scalar(2, c.round, block);
    ReadScalar(2, c.round, block);
    ReadScalar(1, c.height, round);
  }
}
