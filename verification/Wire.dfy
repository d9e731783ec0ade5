/** The Protocol Buffers wire format (encoding guide, "Message Structure",
    "Length-Delimited Records", "Submessages"): a message as a tree of fields,
    the bytes it marshals to, the size computed without building the bytes, and
    a parser for one level of records. */
module Wire {
  import opened Outcomes
  import opened Varint

  /** A message is the list of the fields it emits, in field-number order. */
  datatype Message =
    | End
    | Int(num: nat, value: nat, rest: Message)
    | Blob(num: nat, data: seq<Byte>, rest: Message)
    | Sub(num: nat, body: Message, rest: Message)

  /** A zero scalar is not emitted. */
  function Scalar(num: nat, value: nat, rest: Message): Message {
    if value == 0 then rest else Int(num, value, rest)
  }

  /** An empty byte string is not emitted. */
  function Bytes(num: nat, data: seq<Byte>, rest: Message): Message {
    if data == [] then rest else Blob(num, data, rest)
  }

  const VARINT: nat := 0
  const LEN: nat := 2

  function Key(num: nat, wireType: nat): nat
    requires wireType < 8
  {
    8 * num + wireType
  }

  function Delimited(num: nat, payload: seq<Byte>): seq<Byte> {
    Varint.Encode(Key(num, LEN)) + Varint.Encode(|payload|) + payload
  }

  /** The marshalled bytes. */
  function Marshal(m: Message): seq<Byte> {
    match m
    case End => []
    case Int(num, value, rest) => Varint.Encode(Key(num, VARINT)) + Varint.Encode(value) + Marshal(rest)
    case Blob(num, data, rest) => Delimited(num, data) + Marshal(rest)
    case Sub(num, body, rest) => Delimited(num, Marshal(body)) + Marshal(rest)
  }

  /** The examples of the encoding guide: field 1 holding 150, field 2 holding the
      text "testing", and field 3 holding a submessage with the first of these. */
  lemma GuideExamples()
    ensures Marshal(Int(1, 150, End)) == [0x08, 0x96, 0x01]
    ensures Marshal(Blob(2, [0x74, 0x65, 0x73, 0x74, 0x69, 0x6e, 0x67], End))
         == [0x12, 0x07, 0x74, 0x65, 0x73, 0x74, 0x69, 0x6e, 0x67]
    ensures Marshal(Sub(3, Int(1, 150, End), End)) == [0x1a, 0x03, 0x08, 0x96, 0x01]
  {
    assert Varint.Encode(150) == [0x96] + Varint.Encode(1);
    assert Marshal(Int(1, 150, End)) == [0x08] + [0x96, 0x01] + [];
  }

  function DelimitedSize(num: nat, length: nat): nat {
    Len(Key(num, LEN)) + Len(length) + length
  }

  /** The size arithmetic, on lengths alone. */
  function Size(m: Message): nat {
    match m
    case End => 0
    case Int(num, value, rest) => Len(Key(num, VARINT)) + Len(value) + Size(rest)
    case Blob(num, data, rest) => DelimitedSize(num, |data|) + Size(rest)
    case Sub(num, body, rest) => DelimitedSize(num, Size(body)) + Size(rest)
  }

  lemma DelimitedLength(num: nat, payload: seq<Byte>)
    ensures |Delimited(num, payload)| == DelimitedSize(num, |payload|)
  {
    EncodeLength(Key(num, LEN));
    EncodeLength(|payload|);
  }

  /** The size arithmetic is exact at every nesting depth. */
  lemma {:induction false} MarshalledSize(m: Message)
    ensures |Marshal(m)| == Size(m)
  {
    match m
    case End =>
    case Int(num, value, rest) =>
      EncodeLength(Key(num, VARINT));
      EncodeLength(value);
      MarshalledSize(rest);
    case Blob(num, data, rest) =>
      DelimitedLength(num, data);
      MarshalledSize(rest);
    case Sub(num, body, rest) =>
      DelimitedLength(num, Marshal(body));
      MarshalledSize(body);
      MarshalledSize(rest);
  }

  /** Two messages with the same fields, whose scalars need equally many bytes
      and whose byte strings are equally long, at every depth. */
  predicate SameShape(a: Message, b: Message) {
    match (a, b)
    case (End, End) => true
    case (Int(m, v, r), Int(n, w, s)) => m == n && Len(v) == Len(w) && SameShape(r, s)
    case (Blob(m, d, r), Blob(n, e, s)) => m == n && |d| == |e| && SameShape(r, s)
    case (Sub(m, c, r), Sub(n, d, s)) => m == n && SameShape(c, d) && SameShape(r, s)
    case _ => false
  }

  /** The marshalled size depends on lengths only, never on contents. */
  lemma ShapeFixesSize(a: Message, b: Message)
    requires SameShape(a, b)
    ensures |Marshal(a)| == |Marshal(b)|
  {
    ShapeFixesComputedSize(a, b);
    MarshalledSize(a);
    MarshalledSize(b);
  }

  lemma {:induction false} ShapeFixesComputedSize(a: Message, b: Message)
    requires SameShape(a, b)
    ensures Size(a) == Size(b)
  {
    match a
    case End =>
    case Int(_, _, rest) => ShapeFixesComputedSize(rest, b.rest);
    case Blob(_, _, rest) => ShapeFixesComputedSize(rest, b.rest);
    case Sub(_, body, rest) =>
      ShapeFixesComputedSize(body, b.body);
      ShapeFixesComputedSize(rest, b.rest);
  }

  /** What a reader without a schema sees: a submessage is a byte string. */
  datatype Record = IntRecord(num: nat, value: nat) | LenRecord(num: nat, payload: seq<Byte>)

  function Records(m: Message): seq<Record> {
    match m
    case End => []
    case Int(num, value, rest) => [IntRecord(num, value)] + Records(rest)
    case Blob(num, data, rest) => [LenRecord(num, data)] + Records(rest)
    case Sub(num, body, rest) => [LenRecord(num, Marshal(body))] + Records(rest)
  }

  /** Reads one record from the front. */
  function ParseRecord(bytes: seq<Byte>): Option<(Record, seq<Byte>)> {
    match Decode(bytes)
    case None => None
    case Some((key, afterKey)) =>
      match Decode(afterKey)
      case None => None
      case Some((value, rest)) =>
        if key % 8 == VARINT then Some((IntRecord(key / 8, value), rest))
        else if key % 8 == LEN && value <= |rest| then Some((LenRecord(key / 8, rest[..value]), rest[value..]))
        else None
  }

  lemma ParseProgress(bytes: seq<Byte>)
    ensures ParseRecord(bytes).Some? ==> |ParseRecord(bytes).value.1| < |bytes|
  {
    if Decode(bytes).Some? {
      DecodeShortens(bytes);
      var afterKey := Decode(bytes).value.1;
      if Decode(afterKey).Some? {
        DecodeShortens(afterKey);
      }
    }
  }

  /** Reads records until the bytes run out. */
  function Parse(bytes: seq<Byte>): Option<seq<Record>>
    decreases |bytes|
  {
    if bytes == [] then Some([])
    else
      match ParseRecord(bytes)
      case None => None
      case Some((first, rest)) =>
        ParseProgress(bytes);
        match Parse(rest)
        case None => None
        case Some(others) => Some([first] + others)
  }

  lemma ParseIntRecord(num: nat, value: nat, tail: seq<Byte>)
    ensures ParseRecord(Varint.Encode(Key(num, VARINT)) + Varint.Encode(value) + tail)
         == Some((IntRecord(num, value), tail))
  {
    var key := Varint.Encode(Key(num, VARINT));
    var body := Varint.Encode(value) + tail;
    assert key + Varint.Encode(value) + tail == key + body;
    DecodeEncode(Key(num, VARINT), body);
    DecodeEncode(value, tail);
  }

  lemma ParseLenRecord(num: nat, payload: seq<Byte>, tail: seq<Byte>)
    ensures ParseRecord(Delimited(num, payload) + tail) == Some((LenRecord(num, payload), tail))
  {
    var key := Varint.Encode(Key(num, LEN));
    var length := Varint.Encode(|payload|);
    var body := length + (payload + tail);
    assert Delimited(num, payload) + tail == key + body;
    DecodeEncode(Key(num, LEN), body);
    DecodeEncode(|payload|, payload + tail);
    assert (payload + tail)[..|payload|] == payload;
    assert (payload + tail)[|payload|..] == tail;
  }

  /** Parsing what was marshalled gives back the records, field by field. */
  lemma {:induction false} ParseMarshal(m: Message)
    ensures Parse(Marshal(m)) == Some(Records(m))
  {
    match m
    case End =>
    case Int(num, value, rest) =>
      EncodeLength(Key(num, VARINT));
      ParseIntRecord(num, value, Marshal(rest));
      ParseMarshal(rest);
    case Blob(num, data, rest) =>
      DelimitedLength(num, data);
      ParseLenRecord(num, data, Marshal(rest));
      ParseMarshal(rest);
    case Sub(num, body, rest) =>
      DelimitedLength(num, Marshal(body));
      ParseLenRecord(num, Marshal(body), Marshal(rest));
      ParseMarshal(rest);
  }

  /** Two messages that agree on which length-delimited fields are submessages. */
  predicate SameSchema(a: Message, b: Message) {
    match (a, b)
    case (End, End) => true
    case (Int(m, _, r), Int(n, _, s)) => SameSchema(r, s)
    case (Blob(m, _, r), Blob(n, _, s)) => SameSchema(r, s)
    case (Sub(m, c, r), Sub(n, d, s)) => SameSchema(c, d) && SameSchema(r, s)
    case _ => false
  }

  lemma {:induction false} RecordsDetermineMessage(a: Message, b: Message)
    requires SameSchema(a, b) && Records(a) == Records(b)
    ensures a == b
  {
    if a != End {
      assert Records(a)[0] == Records(b)[0];
      assert Records(a)[1..] == Records(a.rest) && Records(b)[1..] == Records(b.rest);
      RecordsDetermineMessage(a.rest, b.rest);
      if a.Sub? {
        ParseMarshal(a.body);
        ParseMarshal(b.body);
        RecordsDetermineMessage(a.body, b.body);
      }
    }
  }

  /** The encoding loses nothing: messages of one schema with equal bytes are equal. */
  lemma MarshalInjective(a: Message, b: Message)
    requires SameSchema(a, b) && Marshal(a) == Marshal(b)
    ensures a == b
  {
    ParseMarshal(a);
    ParseMarshal(b);
    RecordsDetermineMessage(a, b);
  }
}
