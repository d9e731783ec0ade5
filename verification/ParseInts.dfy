/** Comma-separated lists of positive integers. */
module ParseInts {
  import opened GoInt
  import opened Outcomes
  import opened Sorting
  import opened Text

  function Digit(c: char): (d: nat)
    requires IsDigit(c)
    ensures d < 10
  {
    c as int - '0' as int
  }

  function Value(digits: string): (n: nat)
    requires forall c :: c in digits ==> IsDigit(c)
  {
    if digits == "" then 0
    else
      var last := |digits| - 1;
      assert IsDigit(digits[last]);
      10 * Value(digits[..last]) + Digit(digits[last])
  }

  /** `strconv.Atoi`: an optional sign and decimal digits, in the range of int64. */
  function Atoi(s: string): Option<int> {
    var signed := s != "" && (s[0] == '+' || s[0] == '-');
    var digits := if signed then s[1..] else s;
    if digits == "" || exists c :: c in digits && !IsDigit(c) then None
    else
      var magnitude: int := Value(digits);
      var n := if signed && s[0] == '-' then -magnitude else magnitude;
      if IsInt64(n) then Some(n) else None
  }

  /** What a field contributes: nothing when blank, a positive integer when valid. */
  predicate IsBlank(field: string) {
    Trim(field, IsUnicodeSpace) == ""
  }

  function FieldValue(field: string): Option<int> {
    match Atoi(Trim(field, IsUnicodeSpace))
    case Some(n) => if n > 0 then Some(n) else None
    case None => None
  }

  predicate IsAcceptable(field: string) {
    IsBlank(field) || FieldValue(field).Some?
  }

  function Contribution(field: string): seq<int> {
    match FieldValue(field)
    case Some(n) => [n]
    case None => []
  }

  /** The values of the fields that have one, in order. */
  function Values(fields: seq<string>): seq<int> {
    FlatMap(fields, Contribution)
  }

  datatype Parsed = Values(values: seq<int>) | BadField(field: string) | NoValues

  predicate AllAcceptable(fields: seq<string>) {
    forall f :: f in fields ==> IsAcceptable(f)
  }

  predicate AllBlank(fields: seq<string>) {
    forall f :: f in fields ==> IsBlank(f)
  }

  predicate FirstBad(fields: seq<string>, i: int) {
    0 <= i < |fields| && !IsAcceptable(fields[i]) && AllAcceptable(fields[..i])
  }

  /** What has been collected from the first `i` fields. */
  predicate Collected(fields: seq<string>, i: nat, out: seq<int>)
    requires i <= |fields|
  {
    AllAcceptable(fields[..i]) && out == Values(fields[..i]) && (out == [] <==> AllBlank(fields[..i]))
  }

  lemma CollectField(fields: seq<string>, i: nat, out: seq<int>)
    requires i < |fields| && Collected(fields, i, out) && IsAcceptable(fields[i])
    ensures Collected(fields, i + 1, out + Contribution(fields[i]))
  {
    assert fields[..i + 1] == fields[..i] + [fields[i]];
    ValuesConcat(fields[..i], [fields[i]]);
    OneValue(fields[i]);
  }

  lemma NothingCollected(fields: seq<string>)
    ensures Collected(fields, 0, [])
  {
    assert fields[..0] == [];
  }

  lemma SkipField(fields: seq<string>, i: nat, out: seq<int>)
    requires i < |fields| && Collected(fields, i, out) && IsBlank(fields[i])
    ensures Collected(fields, i + 1, out)
  {
    CollectField(fields, i, out);
    assert out + [] == out;
  }

  lemma CollectedAll(fields: seq<string>, out: seq<int>)
    requires Collected(fields, |fields|, out)
    ensures ReadsAs(fields, if out == [] then NoValues else Parsed.Values(out))
  {
    assert fields[..|fields|] == fields;
  }

  /** What the trimmed text of a field and its number say about the field. */
  lemma ReadField(field: string, f: string, n: Option<int>)
    requires f == Trim(field, IsUnicodeSpace) && n == Atoi(f)
    ensures IsAcceptable(field) <==> f == "" || (n.Some? && n.value > 0)
    ensures f == "" ==> Contribution(field) == []
    ensures n.Some? && n.value > 0 ==> Contribution(field) == [n.value]
  {}

  lemma NumberAt(fields: seq<string>, i: nat, out: seq<int>, n: int)
    requires i < |fields| && Collected(fields, i, out)
    requires Atoi(Trim(fields[i], IsUnicodeSpace)) == Some(n) && n > 0
    ensures Collected(fields, i + 1, out + [n])
  {
    ReadField(fields[i], Trim(fields[i], IsUnicodeSpace), Some(n));
    CollectField(fields, i, out);
  }

  lemma SpoiledAt(fields: seq<string>, i: nat, out: seq<int>, n: Option<int>)
    requires i < |fields| && Collected(fields, i, out)
    requires !IsBlank(fields[i]) && n == Atoi(Trim(fields[i], IsUnicodeSpace)) && (n.None? || n.value <= 0)
    ensures ReadsAs(fields, BadField(Trim(fields[i], IsUnicodeSpace)))
  {
    ReadField(fields[i], Trim(fields[i], IsUnicodeSpace), n);
    assert fields[i] in fields;
    assert FirstBad(fields, i);
  }

  /** The first field that is neither blank nor a positive integer spoils the list;
      a list of blanks only holds no values; otherwise the values come in order. */
  ghost predicate ReadsAs(fields: seq<string>, r: Parsed) {
    && (r.Values? <==> AllAcceptable(fields) && !AllBlank(fields))
    && (r.Values? ==> r.values == Values(fields) && r.values != [])
    && (r.NoValues? <==> AllBlank(fields))
    && (r.BadField? ==> exists i :: FirstBad(fields, i) && r.field == Trim(fields[i], IsUnicodeSpace))
  }

  method ParseInts(csv: string) returns (r: Parsed)
    ensures ReadsAs(Split(csv, ','), r)
    ensures r.BadField? <==> exists f :: f in Split(csv, ',') && !Readable(f)
  {
    AllReadable(Split(csv, ','));
    var fields := Split(csv, ',');
    var out: seq<int> := [];
    NothingCollected(fields);
    for i := 0 to |fields|
      invariant Collected(fields, i, out)
    {
      var f := Trim(fields[i], IsUnicodeSpace);
      if f == "" {
        SkipField(fields, i, out);
        continue;
      }
      var n := Atoi(f);
      if n.None? || n.value <= 0 {
        SpoiledAt(fields, i, out, n);
        return BadField(f);
      }
      NumberAt(fields, i, out, n.value);
      out := out + [n.value];
    }
    CollectedAll(fields, out);
    if out == [] {
      return NoValues;
    }
    r := Parsed.Values(out);
  }

  // ---------- printing and reading back ----------

  function Itoa(n: nat): (s: string)
    ensures s != "" && forall c :: c in s ==> IsDigit(c)
  {
    var digit := [(n % 10 + '0' as int) as char];
    if n < 10 then digit else Itoa(n / 10) + digit
  }

  lemma {:induction false} ValueOfItoa(n: nat)
    ensures Value(Itoa(n)) == n
  {
    var s := Itoa(n);
    var last := |s| - 1;
    if n < 10 {
      assert s[..last] == "";
    } else {
      ValueOfItoa(n / 10);
      assert s[..last] == Itoa(n / 10);
    }
  }

  lemma AtoiOfItoa(n: nat)
    requires n < TWO_63
    ensures Atoi(Itoa(n)) == Some(n)
    ensures !IsUnicodeSpace(Itoa(n)[0]) && !IsUnicodeSpace(Itoa(n)[|Itoa(n)| - 1])
  {
    var s := Itoa(n);
    ValueOfItoa(n);
    assert s[0] in s && s[|s| - 1] in s;
  }

  /** A printed positive integer reads back as itself, whatever white space surrounds it. */
  lemma PaddedFieldReads(before: string, n: nat, after: string)
    requires 1 <= n < TWO_63
    requires forall c :: c in before ==> IsUnicodeSpace(c)
    requires forall c :: c in after ==> IsUnicodeSpace(c)
    ensures FieldValue(before + Itoa(n) + after) == Some(n)
    ensures !IsBlank(before + Itoa(n) + after)
  {
    AtoiOfItoa(n);
    TrimPadded(before, Itoa(n), after, IsUnicodeSpace);
  }

  // ---------- which texts are numbers ----------

  function Zeros(count: nat): string {
    if count == 0 then "" else "0" + Zeros(count - 1)
  }

  /** A number as it may be written: a plus sign or none, leading zeros, its digits. */
  function Written(plus: bool, zeros: nat, n: nat): string {
    (if plus then "+" else "") + Zeros(zeros) + Itoa(n)
  }

  ghost predicate Spells(text: string, n: nat) {
    exists plus: bool, zeros: nat :: text == Written(plus, zeros, n)
  }

  predicate AllDigits(s: string) {
    forall c :: c in s ==> IsDigit(c)
  }

  lemma {:induction false} LeadingZero(digits: string)
    requires AllDigits(digits)
    ensures AllDigits("0" + digits) && Value("0" + digits) == Value(digits)
  {
    var all := "0" + digits;
    if digits == "" {
      assert all[..0] == "";
    } else {
      var last := |digits| - 1;
      LeadingZero(digits[..last]);
      assert all[..|all| - 1] == "0" + digits[..last] && all[|all| - 1] == digits[last];
    }
  }

  lemma {:induction false} ZerosBefore(zeros: nat, digits: string)
    requires AllDigits(digits)
    ensures AllDigits(Zeros(zeros) + digits) && Value(Zeros(zeros) + digits) == Value(digits)
  {
    if zeros == 0 {
      assert Zeros(0) + digits == digits;
    } else {
      ZerosBefore(zeros - 1, digits);
      LeadingZero(Zeros(zeros - 1) + digits);
      assert Zeros(zeros) + digits == "0" + (Zeros(zeros - 1) + digits);
    }
  }

  /** Digits that do not start with a zero are the printed number. */
  lemma {:induction false} ItoaOfValue(digits: string)
    requires digits != "" && AllDigits(digits) && digits[0] != '0'
    ensures Value(digits) >= 1 && Itoa(Value(digits)) == digits
  {
    var last := |digits| - 1;
    var front := digits[..last];
    assert IsDigit(digits[last]);
    assert digits == front + [digits[last]];
    if front == "" {
      assert Value(digits) == Digit(digits[last]);
    } else {
      ItoaOfValue(front);
      assert Value(digits) / 10 == Value(front) && Value(digits) % 10 == Digit(digits[last]);
    }
  }

  lemma {:induction false} DigitsSpell(digits: string) returns (zeros: nat)
    requires AllDigits(digits) && Value(digits) >= 1
    ensures digits == Zeros(zeros) + Itoa(Value(digits))
  {
    if digits[0] == '0' {
      assert digits == "0" + digits[1..];
      LeadingZero(digits[1..]);
      var fewer := DigitsSpell(digits[1..]);
      zeros := fewer + 1;
    } else {
      ItoaOfValue(digits);
      zeros := 0;
    }
  }

  lemma DigitsRead(digits: string)
    requires digits != "" && AllDigits(digits) && Value(digits) < TWO_63
    ensures Atoi(digits) == Atoi("+" + digits) == Some(Value(digits))
  {
    assert digits[0] in digits;
    assert ("+" + digits)[1..] == digits;
  }

  lemma WrittenReads(plus: bool, zeros: nat, n: nat)
    requires n < TWO_63
    ensures Atoi(Written(plus, zeros, n)) == Some(n)
  {
    var digits := Zeros(zeros) + Itoa(n);
    ZerosBefore(zeros, Itoa(n));
    ValueOfItoa(n);
    DigitsRead(digits);
    WrittenParts(plus, zeros, n);
  }

  lemma WrittenParts(plus: bool, zeros: nat, n: nat)
    ensures Written(plus, zeros, n) == (if plus then "+" + (Zeros(zeros) + Itoa(n)) else Zeros(zeros) + Itoa(n))
  {}

  /** What a text with a positive value consists of. */
  lemma ReadDigits(s: string, n: int)
    requires n >= 1 && Atoi(s) == Some(n)
    ensures s != "" && n < TWO_63
    ensures var digits := if s[0] == '+' then s[1..] else s;
            AllDigits(digits) && Value(digits) == n
  {}

  lemma ReadIsWritten(s: string, n: int)
    requires n >= 1 && Atoi(s) == Some(n)
    ensures n < TWO_63 && Spells(s, n)
  {
    ReadDigits(s, n);
    var zeros := DigitsSpell(if s[0] == '+' then s[1..] else s);
    WrittenParts(s[0] == '+', zeros, n);
    assert s[0] == '+' ==> s == "+" + s[1..];
    assert s == Written(s[0] == '+', zeros, n);
  }

  /** A field has a value exactly when its trimmed text spells a positive integer below
      2^63: no minus sign, no other character, no zero, nothing larger. */
  lemma FieldValueIff(field: string, n: int)
    ensures FieldValue(field) == Some(n) <==> 1 <= n < TWO_63 && Spells(Trim(field, IsUnicodeSpace), n)
  {
    var text := Trim(field, IsUnicodeSpace);
    if FieldValue(field) == Some(n) {
      ReadIsWritten(text, n);
    }
    if 1 <= n < TWO_63 && Spells(text, n) {
      var plus: bool, zeros: nat :| text == Written(plus, zeros, n);
      WrittenReads(plus, zeros, n);
    }
  }

  /** A field that is blank or spells a positive int64. */
  ghost predicate Readable(field: string) {
    || (forall c :: c in field ==> IsUnicodeSpace(c))
    || exists n: nat :: 1 <= n < TWO_63 && Spells(Trim(field, IsUnicodeSpace), n)
  }

  lemma AcceptableIffReadable(field: string)
    ensures IsAcceptable(field) <==> Readable(field)
  {
    TrimIsEmptyIff(field, IsUnicodeSpace);
    if FieldValue(field).Some? {
      FieldValueIff(field, FieldValue(field).value);
    }
    if exists n: nat :: 1 <= n < TWO_63 && Spells(Trim(field, IsUnicodeSpace), n) {
      var n: nat :| 1 <= n < TWO_63 && Spells(Trim(field, IsUnicodeSpace), n);
      FieldValueIff(field, n);
    }
  }

  lemma AllReadable(fields: seq<string>)
    ensures AllAcceptable(fields) <==> forall f :: f in fields ==> Readable(f)
  {
    forall f
      ensures IsAcceptable(f) <==> Readable(f)
    {
      AcceptableIffReadable(f);
    }
  }

  lemma ValuesConcat(a: seq<string>, b: seq<string>)
    ensures Values(a + b) == Values(a) + Values(b)
  {
    FlatMapConcat(a, b, Contribution);
  }

  lemma OneValue(field: string)
    ensures Values([field]) == Contribution(field)
    ensures IsBlank(field) ==> Contribution(field) == []
  {
    FlatMapOne(field, Contribution);
  }

  /** Blank fields change nothing, wherever they stand. */
  lemma BlankFieldIgnored(a: seq<string>, blank: string, b: seq<string>)
    requires IsBlank(blank)
    ensures Values(a + [blank] + b) == Values(a + b)
    ensures AllAcceptable(a + [blank] + b) <==> AllAcceptable(a + b)
  {
    BlankAtEnd(a, blank);
    ValuesConcat(a + [blank], b);
    ValuesConcat(a, b);
    AcceptableConcat(a + [blank], b);
    AcceptableConcat(a, b);
  }

  lemma BlankAtEnd(a: seq<string>, blank: string)
    requires IsBlank(blank)
    ensures Values(a + [blank]) == Values(a)
    ensures AllAcceptable(a + [blank]) <==> AllAcceptable(a)
  {}

  lemma AcceptableConcat(a: seq<string>, b: seq<string>)
    ensures AllAcceptable(a + b) <==> AllAcceptable(a) && AllAcceptable(b)
  {}

  /** One field of a list to be read: white space around a number, or around nothing. */
  datatype Entry = Blank(space: string) | Number(before: string, n: nat, after: string)
  {
    predicate Valid() {
      match this
      case Blank(space) => forall c :: c in space ==> IsUnicodeSpace(c)
      case Number(before, n, after) =>
        && 1 <= n < TWO_63
        && (forall c :: c in before ==> IsUnicodeSpace(c))
        && (forall c :: c in after ==> IsUnicodeSpace(c))
    }

    function Text(): string {
      match this
      case Blank(space) => space
      case Number(before, n, after) => before + Itoa(n) + after
    }
  }

  function Texts(entries: seq<Entry>): seq<string> {
    if entries == [] then []
    else
      var last := |entries| - 1;
      Texts(entries[..last]) + [entries[last].Text()]
  }

  function Numbers(entries: seq<Entry>): seq<int> {
    if entries == [] then []
    else
      var last := |entries| - 1;
      Numbers(entries[..last]) + if entries[last].Number? then [entries[last].n] else []
  }

  lemma EntryReads(e: Entry)
    requires e.Valid()
    ensures ',' !in e.Text()
    ensures e.Blank? ==> IsBlank(e.Text())
    ensures e.Number? ==> !IsBlank(e.Text()) && FieldValue(e.Text()) == Some(e.n)
  {
    if e.Blank? {
      TrimToNothing(e.space, IsUnicodeSpace);
    } else {
      PaddedFieldReads(e.before, e.n, e.after);
    }
  }

  predicate ValidEntries(entries: seq<Entry>) {
    forall e :: e in entries ==> e.Valid()
  }

  predicate CommaFree(fields: seq<string>) {
    forall f :: f in fields ==> ',' !in f
  }

  lemma {:induction false} EntriesRead(entries: seq<Entry>)
    requires ValidEntries(entries)
    ensures CommaFree(Texts(entries)) && AllAcceptable(Texts(entries))
    ensures Values(Texts(entries)) == Numbers(entries)
    ensures AllBlank(Texts(entries)) <==> Numbers(entries) == []
  {
    if entries != [] {
      var last := |entries| - 1;
      EntriesRead(entries[..last]);
      EntryAppended(Texts(entries[..last]), entries[last]);
    }
  }

  lemma EntryAppended(front: seq<string>, e: Entry)
    requires e.Valid() && CommaFree(front) && AllAcceptable(front)
    ensures CommaFree(front + [e.Text()]) && AllAcceptable(front + [e.Text()])
    ensures Values(front + [e.Text()]) == Values(front) + if e.Number? then [e.n] else []
    ensures AllBlank(front + [e.Text()]) <==> AllBlank(front) && e.Blank?
  {
    EntryReads(e);
    OneValue(e.Text());
    ValuesConcat(front, [e.Text()]);
    AcceptableConcat(front, [e.Text()]);
    BlankConcat(front, e.Text());
  }

  lemma BlankConcat(front: seq<string>, last: string)
    ensures AllBlank(front + [last]) <==> AllBlank(front) && IsBlank(last)
  {}

  /** The fields of a comma-joined list are its entries. */
  lemma FieldsOfJoin(entries: seq<Entry>)
    requires ValidEntries(entries)
    ensures var fields := Split(Join(Texts(entries), ","), ',');
            && AllAcceptable(fields)
            && Values(fields) == Numbers(entries)
            && (AllBlank(fields) <==> Numbers(entries) == [])
  {
    EntriesRead(entries);
    if entries == [] {
      TrimToNothing("", IsUnicodeSpace);
      BlankAtEnd([], "");
    } else {
      SplitJoin(Texts(entries), ',');
    }
  }

  /** Reading undoes comma-joining: any list of entries with numbers in range,
      padded and interleaved with blanks at will, reads as those numbers, and as no
      values when there are none. */
  method ReadJoined(entries: seq<Entry>) returns (r: Parsed)
    requires ValidEntries(entries)
    ensures r == if Numbers(entries) == [] then NoValues else Parsed.Values(Numbers(entries))
  {
    FieldsOfJoin(entries);
    r := ParseInts(Join(Texts(entries), ","));
  }
}
