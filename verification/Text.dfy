/** Strings: splitting and joining, trimming, and code-point order. */
module Text {
  function Split(s: string, sep: char): (pieces: seq<string>)
    ensures |pieces| >= 1
  {
    if s == "" then [""]
    else
      var pieces := Split(s[1..], sep);
      if s[0] == sep then [""] + pieces else [[s[0]] + pieces[0]] + pieces[1..]
  }

  function Join(pieces: seq<string>, sep: string): string {
    if pieces == [] then ""
    else if |pieces| == 1 then pieces[0]
    else pieces[0] + sep + Join(pieces[1..], sep)
  }

  lemma {:induction false} SplitWhole(s: string, sep: char)
    requires sep !in s
    ensures Split(s, sep) == [s]
  {
    if s != "" {
      SplitWhole(s[1..], sep);
      assert [s[0]] + s[1..] == s;
    }
  }

  /** A piece without separators comes off the front. */
  lemma {:induction false} SplitFirst(a: string, sep: char, rest: string)
    requires sep !in a
    ensures Split(a + [sep] + rest, sep) == [a] + Split(rest, sep)
  {
    var s := a + [sep] + rest;
    if a == "" {
      assert s[1..] == rest;
    } else {
      SplitFirst(a[1..], sep, rest);
      assert s[1..] == a[1..] + [sep] + rest;
      assert [a[0]] + a[1..] == a;
    }
  }

  /** A piece without separators comes off the end. */
  lemma {:induction false} SplitLast(a: string, sep: char, b: string)
    requires sep !in b
    ensures Split(a + [sep] + b, sep) == Split(a, sep) + [b]
  {
    var s := a + [sep] + b;
    if a == "" {
      SplitFirst("", sep, b);
      SplitWhole(b, sep);
    } else {
      SplitLast(a[1..], sep, b);
      assert s[0] == a[0] && s[1..] == a[1..] + [sep] + b;
    }
  }

  /** Splitting undoes joining. */
  lemma {:induction false} SplitJoin(pieces: seq<string>, sep: char)
    requires pieces != [] && forall p :: p in pieces ==> sep !in p
    ensures Split(Join(pieces, [sep]), sep) == pieces
  {
    if |pieces| == 1 {
      SplitWhole(pieces[0], sep);
    } else {
      SplitFirst(pieces[0], sep, Join(pieces[1..], [sep]));
      SplitJoin(pieces[1..], sep);
    }
  }

  lemma {:induction false} JoinSplit(s: string, sep: char)
    ensures Join(Split(s, sep), [sep]) == s
  {
    if s != "" {
      JoinSplit(s[1..], sep);
      var pieces := Split(s[1..], sep);
      assert [s[0]] + s[1..] == s;
      if s[0] != sep {
        var first := [s[0]] + pieces[0];
        assert Split(s, sep) == [first] + pieces[1..];
        assert ([first] + pieces[1..])[1..] == pieces[1..];
      } else {
        assert ([""] + pieces)[1..] == pieces;
      }
    }
  }

  lemma {:induction false} PieceChars(s: string, sep: char, piece: string)
    requires piece in Split(s, sep)
    ensures sep !in piece
    ensures forall c :: c in piece ==> c in s
  {
    if s != "" {
      var pieces := Split(s[1..], sep);
      if piece in pieces {
        PieceChars(s[1..], sep, piece);
      } else if s[0] != sep {
        PieceChars(s[1..], sep, pieces[0]);
        assert piece == [s[0]] + pieces[0];
      }
    }
  }

  predicate StartsWith(s: string, prefix: string) {
    |prefix| <= |s| && s[..|prefix|] == prefix
  }

  function TrimLeft(s: string, drop: char -> bool): (t: string)
    ensures forall c :: c in t ==> c in s
    ensures t == "" || !drop(t[0])
  {
    if s != "" && drop(s[0]) then TrimLeft(s[1..], drop) else s
  }

  function TrimRight(s: string, drop: char -> bool): (t: string)
    ensures forall c :: c in t ==> c in s
    ensures |t| <= |s| && t == s[..|t|]
    ensures t == "" || !drop(t[|t| - 1])
  {
    if s != "" && drop(s[|s| - 1]) then TrimRight(s[..|s| - 1], drop) else s
  }

  function Trim(s: string, drop: char -> bool): (t: string)
    ensures forall c :: c in t ==> c in s
    ensures t == "" || (!drop(t[0]) && !drop(t[|t| - 1]))
  {
    TrimRight(TrimLeft(s, drop), drop)
  }

  lemma {:induction false} TrimLeftPadding(pad: string, core: string, drop: char -> bool)
    requires forall c :: c in pad ==> drop(c)
    requires core == "" || !drop(core[0])
    ensures TrimLeft(pad + core, drop) == core
  {
    if pad == "" {
      assert pad + core == core;
    } else {
      assert (pad + core)[1..] == pad[1..] + core;
      assert pad[0] in pad;
      TrimLeftPadding(pad[1..], core, drop);
    }
  }

  lemma {:induction false} TrimRightPadding(core: string, pad: string, drop: char -> bool)
    requires forall c :: c in pad ==> drop(c)
    requires core == "" || !drop(core[|core| - 1])
    ensures TrimRight(core + pad, drop) == core
    decreases |pad|
  {
    if pad == "" {
      assert core + pad == core;
    } else {
      var last := |pad| - 1;
      assert (core + pad)[..|core + pad| - 1] == core + pad[..last];
      assert pad[last] in pad;
      TrimRightPadding(core, pad[..last], drop);
    }
  }

  /** Trimming takes off what surrounds a core, and nothing else. */
  lemma TrimPadded(before: string, core: string, after: string, drop: char -> bool)
    requires forall c :: c in before ==> drop(c)
    requires forall c :: c in after ==> drop(c)
    requires core != "" && !drop(core[0]) && !drop(core[|core| - 1])
    ensures Trim(before + core + after, drop) == core
  {
    assert before + core + after == before + (core + after);
    TrimLeftPadding(before, core + after, drop);
    TrimRightPadding(core, after, drop);
  }

  lemma TrimToNothing(space: string, drop: char -> bool)
    requires forall c :: c in space ==> drop(c)
    ensures Trim(space, drop) == ""
  {
    assert space + "" == space;
    TrimLeftPadding(space, "", drop);
  }

  lemma {:induction false} NothingLeft(s: string, drop: char -> bool)
    requires TrimLeft(s, drop) == ""
    ensures forall c :: c in s ==> drop(c)
  {
    if s != "" {
      NothingLeft(s[1..], drop);
      assert s == [s[0]] + s[1..];
    }
  }

  lemma TrimIsEmptyIff(s: string, drop: char -> bool)
    ensures Trim(s, drop) == "" <==> forall c :: c in s ==> drop(c)
  {
    if forall c :: c in s ==> drop(c) {
      TrimToNothing(s, drop);
    }
    if Trim(s, drop) == "" {
      var t := TrimLeft(s, drop);
      assert t == "" || t[0] in t;
      NothingRight(t, drop);
      NothingLeft(s, drop);
    }
  }

  lemma {:induction false} NothingRight(s: string, drop: char -> bool)
    requires TrimRight(s, drop) == ""
    ensures forall c :: c in s ==> drop(c)
  {
    if s != "" {
      var last := |s| - 1;
      NothingRight(s[..last], drop);
      assert s == s[..last] + [s[last]];
    }
  }

  /** The white space Go trims. */
  predicate IsUnicodeSpace(c: char) {
    || '\t' <= c <= '\r' || c == ' ' || c == '\U{85}' || c == '\U{A0}' || c == '\U{1680}'
    || '\U{2000}' <= c <= '\U{200A}' || c == '\U{2028}' || c == '\U{2029}' || c == '\U{202F}'
    || c == '\U{205F}' || c == '\U{3000}'
  }

  /** Python also counts the four information separators. */
  predicate IsPythonSpace(c: char) {
    IsUnicodeSpace(c) || '\U{1C}' <= c <= '\U{1F}'
  }

  /** The white space by its code points. */
  lemma SpaceCodes(c: char)
    ensures IsUnicodeSpace(c) <==> c as int in {
              9, 10, 11, 12, 13, 32, 133, 160, 5760, 8192, 8193, 8194, 8195, 8196, 8197, 8198, 8199, 8200, 8201, 8202,
              8232, 8233, 8239, 8287, 12288}
    ensures IsPythonSpace(c) <==> IsUnicodeSpace(c) || c as int in {28, 29, 30, 31}
  {}

  predicate IsDigit(c: char) {
    '0' <= c <= '9'
  }

  /** Lexicographic order by code point. */
  predicate StrLe(a: string, b: string) {
    a == "" || (b != "" && (a[0] < b[0] || (a[0] == b[0] && StrLe(a[1..], b[1..]))))
  }

  lemma {:induction false} StrLeTotal(a: string, b: string)
    ensures StrLe(a, b) || StrLe(b, a)
    ensures StrLe(a, b) && StrLe(b, a) ==> a == b
  {
    if a != "" && b != "" {
      StrLeTotal(a[1..], b[1..]);
      assert [a[0]] + a[1..] == a && [b[0]] + b[1..] == b;
    }
  }

  /** `a` and `b` agree before position `i` and `a` has the smaller character there. */
  predicate LessAt(a: string, b: string, i: nat) {
    i < |a| && i < |b| && a[..i] == b[..i] && a[i] < b[i]
  }

  /** A prefix comes first, and otherwise the first difference decides. */
  ghost predicate Precedes(a: string, b: string) {
    StartsWith(b, a) || exists i: nat :: LessAt(a, b, i)
  }

  lemma {:induction false} StrLeIff(a: string, b: string)
    ensures StrLe(a, b) <==> Precedes(a, b)
  {
    if a != "" && b != "" {
      if a[0] == b[0] {
        StrLeIff(a[1..], b[1..]);
        SameFirst(a, b);
      } else {
        assert LessAt(a, b, 0) <==> a[0] < b[0];
        DifferentFirst(a, b);
      }
    }
  }

  lemma DifferentFirst(a: string, b: string)
    requires a != "" && b != "" && a[0] != b[0]
    ensures !StartsWith(b, a)
    ensures forall i: nat :: LessAt(a, b, i) ==> i == 0
  {
    forall i: nat | 0 < i < |a| && i < |b|
      ensures a[..i] != b[..i]
    {
      assert a[..i][0] != b[..i][0];
    }
  }

  lemma SameFirst(a: string, b: string)
    requires a != "" && b != "" && a[0] == b[0]
    ensures Precedes(a, b) <==> Precedes(a[1..], b[1..])
  {
    PrefixStep(a, b);
    if exists i: nat :: LessAt(a, b, i) {
      var i: nat :| LessAt(a, b, i);
      LessStep(a, b, i - 1);
    }
    if exists i: nat :: LessAt(a[1..], b[1..], i) {
      var i: nat :| LessAt(a[1..], b[1..], i);
      LessStep(a, b, i);
    }
  }

  lemma PrefixStep(a: string, b: string)
    requires a != "" && b != "" && a[0] == b[0]
    ensures StartsWith(b, a) <==> StartsWith(b[1..], a[1..])
  {
    if |a| <= |b| {
      assert b[..|a|] == [b[0]] + b[1..][..|a| - 1];
      assert a == [a[0]] + a[1..];
    }
  }

  lemma LessStep(a: string, b: string, i: nat)
    requires a != "" && b != "" && a[0] == b[0]
    ensures LessAt(a, b, i + 1) <==> LessAt(a[1..], b[1..], i)
  {
    if i + 1 < |a| && i + 1 < |b| {
      assert a[..i + 1] == [a[0]] + a[1..][..i];
      assert b[..i + 1] == [b[0]] + b[1..][..i];
    }
  }

  lemma {:induction false} StrLeTransitive(a: string, b: string, c: string)
    requires StrLe(a, b) && StrLe(b, c)
    ensures StrLe(a, c)
  {
    if a != "" && a[0] == b[0] == c[0] {
      StrLeTransitive(a[1..], b[1..], c[1..]);
    }
  }

  // ---------- joined text as a function of its lines ----------

  lemma HeadOfConcat<T>(a: seq<T>, b: seq<T>)
    requires a != []
    ensures (a + b)[0] == a[0] && (a + b)[1..] == a[1..] + b
  {}

  lemma {:induction false} JoinConcat(a: seq<string>, b: seq<string>, sep: string)
    requires a != [] && b != []
    ensures Join(a + b, sep) == Join(a, sep) + sep + Join(b, sep)
  {
    HeadOfConcat(a, b);
    if |a| == 1 {
      assert a[1..] + b == b;
    } else {
      JoinConcat(a[1..], b, sep);
      Associate(a[0] + sep, Join(a[1..], sep), sep + Join(b, sep));
      Associate(Join(a[1..], sep), sep, Join(b, sep));
      Associate(a[0] + sep + Join(a[1..], sep), sep, Join(b, sep));
    }
  }

  lemma Associate<T>(a: seq<T>, b: seq<T>, c: seq<T>)
    ensures a + b + c == a + (b + c)
  {}

  lemma TwoGaps<T>(a: seq<T>, b: seq<T>, c: seq<T>)
    ensures a + b + [] + c + [] == a + b + c == a + (b + c)
  {}

  lemma {:induction false} JoinLength(a: seq<string>, b: seq<string>, sep: string)
    requires |a| == |b| && forall i :: 0 <= i < |a| ==> |a[i]| <= |b[i]|
    ensures |Join(a, sep)| <= |Join(b, sep)|
    ensures (exists i :: 0 <= i < |a| && |a[i]| < |b[i]|) ==> |Join(a, sep)| < |Join(b, sep)|
  {
    if |a| > 1 {
      JoinLength(a[1..], b[1..], sep);
      if exists i :: 0 <= i < |a| && |a[i]| < |b[i]| {
        var i :| 0 <= i < |a| && |a[i]| < |b[i]|;
        if i > 0 {
          assert a[1..][i - 1] == a[i] && b[1..][i - 1] == b[i];
        }
      }
    }
  }

  lemma {:induction false} JoinInjective(a: seq<string>, b: seq<string>, sep: string)
    requires |a| == |b| && forall i :: 0 <= i < |a| ==> |a[i]| == |b[i]|
    requires Join(a, sep) == Join(b, sep)
    ensures a == b
  {
    if |a| > 1 {
      var n := |a[0]|;
      assert a[0] == Join(a, sep)[..n] && b[0] == Join(b, sep)[..n];
      var m := n + |sep|;
      assert Join(a[1..], sep) == Join(a, sep)[m..] && Join(b[1..], sep) == Join(b, sep)[m..];
      JoinInjective(a[1..], b[1..], sep);
      assert a == [a[0]] + a[1..] && b == [b[0]] + b[1..];
    }
  }

  lemma {:induction false} JoinChars(pieces: seq<string>, sep: string, c: char)
    requires c !in sep && forall p :: p in pieces ==> c !in p
    ensures c !in Join(pieces, sep)
  {
    if |pieces| > 1 {
      JoinChars(pieces[1..], sep, c);
    }
  }
}
