/** Paths, names, dates and titles, said of the text itself. */
module DocNames {
  import opened Outcomes
  import opened Text
  import opened Sorting
  import opened DocIndex

  // ---------- what is tracked ----------

  predicate IsSpaces(s: string) {
    forall c :: c in s ==> IsPythonSpace(c)
  }

  predicate IsWord(w: string) {
    w != "" && forall c :: c in w ==> !IsPythonSpace(c)
  }

  /** Words between gaps of white space; only the outer gaps may be empty. */
  ghost predicate Spaced(words: seq<string>, gaps: seq<string>) {
    && |gaps| == |words| + 1
    && (forall w :: w in words ==> IsWord(w))
    && (forall g :: g in gaps ==> IsSpaces(g))
    && forall i :: 0 < i < |words| ==> gaps[i] != ""
  }

  function Laid(words: seq<string>, gaps: seq<string>): string
    requires |gaps| == |words| + 1
  {
    if words == [] then gaps[0] else gaps[0] + words[0] + Laid(words[1..], gaps[1..])
  }

  lemma {:induction false} SkipSpaces(gap: string, rest: string)
    requires IsSpaces(gap)
    ensures Words(gap + rest) == Words(rest)
  {
    if gap == "" {
      assert gap + rest == rest;
    } else {
      assert gap[0] in gap;
      assert (gap + rest)[1..] == gap[1..] + rest;
      SkipSpaces(gap[1..], rest);
    }
  }

  lemma {:induction false} LengthOfWord(w: string, rest: string)
    requires forall c :: c in w ==> !IsPythonSpace(c)
    requires rest == "" || IsPythonSpace(rest[0])
    ensures WordLength(w + rest) == |w|
  {
    if w == "" {
      assert w + rest == rest;
    } else {
      assert w[0] in w;
      assert (w + rest)[1..] == w[1..] + rest;
      LengthOfWord(w[1..], rest);
    }
  }

  lemma TakeWord(w: string, rest: string)
    requires IsWord(w) && (rest == "" || IsPythonSpace(rest[0]))
    ensures Words(w + rest) == [w] + Words(rest)
  {
    LengthOfWord(w, rest);
    assert w[0] in w;
    assert (w + rest)[..|w|] == w && (w + rest)[|w|..] == rest;
  }

  /** Splitting at white space gives back the words of any text. */
  lemma {:induction false} WordsOfLaid(words: seq<string>, gaps: seq<string>)
    requires Spaced(words, gaps)
    ensures Words(Laid(words, gaps)) == words
  {
    assert gaps[0] in gaps;
    if words == [] {
      SkipSpaces(gaps[0], "");
      assert gaps[0] + "" == gaps[0];
    } else {
      var rest := Laid(words[1..], gaps[1..]);
      WordsOfLaid(words[1..], gaps[1..]);
      assert Laid(words, gaps) == gaps[0] + (words[0] + rest);
      SkipSpaces(gaps[0], words[0] + rest);
      assert words[0] in words;
      StartOfRest(words, gaps);
      TakeWord(words[0], rest);
    }
  }

  lemma StartOfRest(words: seq<string>, gaps: seq<string>)
    requires Spaced(words, gaps) && words != []
    ensures var rest := Laid(words[1..], gaps[1..]);
            rest == "" || IsPythonSpace(rest[0])
  {
    var gap := gaps[1];
    assert gap in gaps;
    if gap != "" {
      assert gap[0] in gap;
      assert Laid(words[1..], gaps[1..])[0] == gap[0];
    }
  }

  /** No part of the path is a directory to be skipped. */
  function OutsideSkipped(path: string): bool {
    forall part :: part in Split(path, '/') ==>
      part !in {".git", ".worktrees", ".scratch", ".icc", "artifacts", "__pycache__", "node_modules"}
  }

  /** From any output of `git ls-files`, exactly the paths outside the skipped
      directories are tracked, in order. */
  lemma TrackedOfLaid(words: seq<string>, gaps: seq<string>)
    requires Spaced(words, gaps)
    ensures Tracked(Laid(words, gaps)) == Filter(words, OutsideSkipped)
  {
    WordsOfLaid(words, gaps);
    FilterCongruent(words, path => forall part :: part in Parts(path) ==> part !in SKIP_DIRS, OutsideSkipped);
  }

  // ---------- names and stems ----------

  lemma NameAfterSlash(folder: string, name: string)
    requires '/' !in name
    ensures Name(folder + "/" + name) == name && Name(name) == name
  {
    SplitLast(folder, '/', name);
    SplitWhole(name, '/');
  }

  lemma {:induction false} LastDotAt(a: string, b: string)
    requires '.' !in b
    ensures LastDot(a + "." + b) == |a|
    decreases |b|
  {
    var s := a + "." + b;
    if b != "" {
      assert s[..|s| - 1] == a + "." + b[..|b| - 1];
      LastDotAt(a, b[..|b| - 1]);
    } else {
      assert s[|s| - 1] == '.';
    }
  }

  lemma {:induction false} NoDot(name: string)
    requires '.' !in name
    ensures LastDot(name) == 0
  {
    if name != "" {
      NoDot(name[..|name| - 1]);
    }
  }

  /** The stem ends at the last dot, unless nothing stands before or after it. */
  lemma StemAtDot(a: string, b: string)
    requires '.' !in b
    ensures Stem(a + "." + b) == if a != "" && b != "" then a else a + "." + b
    ensures Stem(b) == b
  {
    LastDotAt(a, b);
    NoDot(b);
    assert (a + "." + b)[..|a|] == a;
  }

  // ---------- titles ----------

  /** How many characters the first one read takes up, and what it reads as. */
  function LineEnd(s: string): nat {
    if |s| > 1 && s[0] == '\r' && s[1] == '\n' then 2 else 1
  }

  lemma UniversalStep(s: string)
    requires s != ""
    ensures Universal(s) == (if s[0] == '\r' then "\n" else [s[0]]) + Universal(s[LineEnd(s)..])
  {}

  lemma {:induction false} UniversalConcat(a: string, b: string)
    requires a == "" || a[|a| - 1] != '\r' || b == "" || b[0] != '\n'
    ensures Universal(a + b) == Universal(a) + Universal(b)
    decreases |a|
  {
    if a == "" {
      assert a + b == b;
    } else {
      var n := LineEnd(a);
      assert (a + b)[0] == a[0] && LineEnd(a + b) == n && (a + b)[n..] == a[n..] + b;
      UniversalStep(a + b);
      UniversalStep(a);
      UniversalConcat(a[n..], b);
      Associate(if a[0] == '\r' then "\n" else [a[0]], Universal(a[n..]), Universal(b));
    }
  }

  /** Each way to end a line reads as a line feed, and nothing else changes. */
  lemma UniversalUnits(c: char)
    ensures Universal("\n") == Universal("\r") == Universal("\r\n") == "\n"
    ensures c != '\r' ==> Universal([c]) == [c]
  {
    assert "\r\n"[2..] == "" && "\r"[1..] == "" && "\n"[1..] == "" && [c][1..] == "";
  }

  function Hashes(count: nat): string {
    if count == 0 then "" else "#" + Hashes(count - 1)
  }

  lemma {:induction false} OnlyHashes(count: nat)
    ensures |Hashes(count)| == count && forall c :: c in Hashes(count) ==> c == '#'
  {
    if count > 0 {
      OnlyHashes(count - 1);
    }
  }

  /** A heading is what stands after the hashes, without the white space around it, in
      its first 110 characters. */
  lemma HeadingOf(count: nat, before: string, core: string, after: string)
    requires count >= 1 && IsSpaces(before) && IsSpaces(after)
    requires core != "" && !IsPythonSpace(core[0]) && !IsPythonSpace(core[|core| - 1])
    requires before == "" ==> core[0] != '#'
    ensures var line := Hashes(count) + (before + core + after);
            && StartsWith(line, "#")
            && HeadingText(line) == if |core| <= 110 then core else core[..110]
  {
    var rest := before + core + after;
    OnlyHashes(count);
    if before != "" {
      assert before[0] in before && IsPythonSpace(before[0]);
      assert rest[0] == before[0];
    } else {
      assert rest[0] == core[0];
    }
    TrimLeftPadding(Hashes(count), rest, IsHash);
    TrimPadded(before, core, after, IsPythonSpace);
    assert (Hashes(count) + rest)[..1] == "#";
  }

  /** A line of hashes and white space is an empty heading. */
  lemma EmptyHeading(count: nat, space: string)
    requires count >= 1 && IsSpaces(space)
    ensures StartsWith(Hashes(count) + space, "#") && HeadingText(Hashes(count) + space) == ""
  {
    OnlyHashes(count);
    assert space == "" || (space[0] in space && !IsHash(space[0]));
    TrimLeftPadding(Hashes(count), space, IsHash);
    TrimToNothing(space, IsPythonSpace);
    assert (Hashes(count) + space)[..1] == "#";
  }

  predicate Headless(lines: seq<string>) {
    forall l :: l in lines ==> '\n' !in l && !StartsWith(l, "#")
  }

  lemma {:induction false} FirstHeadingAfter(before: seq<string>, rest: seq<string>)
    requires Headless(before)
    ensures FirstHeading(before + rest) == FirstHeading(rest)
  {
    if before == [] {
      assert before + rest == rest;
    } else {
      assert before[0] in before;
      assert (before + rest)[1..] == before[1..] + rest;
      FirstHeadingAfter(before[1..], rest);
    }
  }

  lemma TitleOfLines(files: Files, path: string, lines: seq<string>)
    requires path in files && lines != [] && forall l :: l in lines ==> '\n' !in l
    requires Universal(files[path]) == Join(lines, "\n")
    ensures Title(files, path)
         == match FirstHeading(lines) { case Some(title) => title case None => Stem(Name(path)) }
  {
    SplitJoin(lines, '\n');
  }

  lemma HeadingFirst(line: string, after: seq<string>)
    requires StartsWith(line, "#")
    ensures FirstHeading([line] + after) == Some(HeadingText(line))
  {}

  /** The title of a document is its first line that starts with a hash. */
  lemma TitleIsFirstHeading(files: Files, path: string, before: seq<string>, line: string, after: seq<string>)
    requires Headless(before) && '\n' !in line && StartsWith(line, "#")
    requires forall l :: l in after ==> '\n' !in l
    requires path in files && Universal(files[path]) == Join(before + ([line] + after), "\n")
    ensures Title(files, path) == HeadingText(line)
  {
    TitleOfLines(files, path, before + ([line] + after));
    FirstHeadingAfter(before, [line] + after);
    HeadingFirst(line, after);
  }

  /** Without such a line, or without the file, the title is the stem of the name. */
  lemma TitleIsStem(files: Files, path: string, lines: seq<string>)
    requires path in files ==> lines != [] && Headless(lines) && Universal(files[path]) == Join(lines, "\n")
    ensures Title(files, path) == Stem(Name(path))
  {
    if path in files {
      TitleOfLines(files, path, lines);
      FirstHeadingAfter(lines, []);
      assert lines + [] == lines;
    }
  }

  // ---------- dates ----------

  predicate Digits(s: string, count: nat) {
    |s| == count && forall i :: 0 <= i < count ==> IsDigit(s[i])
  }

  predicate Hyphen(h: string) {
    h == "" || h == "-"
  }

  /** A year of this century, a month up to 19 and a day up to 99, with or without
      hyphens between them, at the front of `s`. */
  predicate DateParts(s: string, y: string, h: string, m: string, k: string, d: string, rest: string) {
    && Digits(y, 4) && y[0] == '2' && y[1] == '0'
    && Digits(m, 2) && (m[0] == '0' || m[0] == '1')
    && Digits(d, 2)
    && Hyphen(h) && Hyphen(k)
    && s == y + h + m + k + d + rest
  }

  ghost predicate StartsDate(s: string, date: string) {
    exists y, h, m, k, d, rest :: DateParts(s, y, h, m, k, d, rest) && date == y + m + d
  }

  lemma DateFront(s: string, y: string, h: string, m: string, k: string, d: string, rest: string)
    requires DateParts(s, y, h, m, k, d, rest)
    ensures DateAt(s) == Some(y + m + d)
  {
    var i := 4 + |h|;
    var j := i + 2 + |k|;
    assert s[..4] == y && (s[4] == '-' <==> h == "-");
    assert s[i..i + 2] == m && s[i] == m[0] && s[i + 1] == m[1];
    assert s[i + 2] == '-' <==> k == "-";
    assert s[j..j + 2] == d && s[j] == d[0] && s[j + 1] == d[1];
  }

  lemma DateAtIff(s: string, date: string)
    ensures DateAt(s) == Some(date) <==> StartsDate(s, date)
  {
    if StartsDate(s, date) {
      var y, h, m, k, d, rest :| DateParts(s, y, h, m, k, d, rest) && date == y + m + d;
      DateFront(s, y, h, m, k, d, rest);
    }
    if DateAt(s) == Some(date) {
      DatePieces(s);
    }
  }

  lemma DatePieces(s: string)
    requires DateAt(s).Some?
    ensures StartsDate(s, DateAt(s).value)
  {
    var i := if s[4] == '-' then 5 else 4;
    var j := if s[i + 2] == '-' then i + 3 else i + 2;
    SixPieces(s, i, j);
    assert Digits(s[..4], 4) && Digits(s[i..i + 2], 2) && Digits(s[j..j + 2], 2);
    assert Hyphen(s[4..i]) && Hyphen(s[i + 2..j]);
    assert DateParts(s, s[..4], s[4..i], s[i..i + 2], s[i + 2..j], s[j..j + 2], s[j + 2..]);
  }

  lemma SixPieces(s: string, i: nat, j: nat)
    requires 4 <= i && i + 2 <= j && j + 2 <= |s|
    ensures s == s[..4] + s[4..i] + s[i..i + 2] + s[i + 2..j] + s[j..j + 2] + s[j + 2..]
  {}

  /** The key is the first date in the name, and "0" without one. */
  ghost predicate KeyOf(name: string, key: string) {
    || (key == "0" && forall i, date | 0 <= i <= |name| :: !StartsDate(name[i..], date))
    || exists i: nat :: FirstDate(name, i, key)
  }

  ghost predicate FirstDate(name: string, i: nat, date: string) {
    && i <= |name| && StartsDate(name[i..], date)
    && forall j, earlier | 0 <= j < i :: !StartsDate(name[j..], earlier)
  }

  lemma {:induction false} DateKeyIff(name: string, key: string)
    ensures DateKey(name) == key <==> KeyOf(name, key)
  {
    DateKeyFound(name);
    OneKey(name, key, DateKey(name));
  }

  lemma {:induction false} DateKeyFound(name: string)
    ensures KeyOf(name, DateKey(name))
  {
    DateAtIff(name, if DateAt(name).Some? then DateAt(name).value else "");
    assert name[0..] == name;
    if name == "" {
      forall i, date | 0 <= i <= |name|
        ensures !StartsDate(name[i..], date)
      {
        DateAtIff(name[i..], date);
      }
    } else if DateAt(name).Some? {
      assert FirstDate(name, 0, DateKey(name));
    } else {
      DateKeyFound(name[1..]);
      KeyOfTail(name, DateKey(name[1..]));
    }
  }

  lemma KeyOfTail(name: string, key: string)
    requires name != "" && DateAt(name).None? && KeyOf(name[1..], key)
    ensures KeyOf(name, key)
  {
    var tail := name[1..];
    forall i: nat, date | i <= |name|
      ensures i == 0 ==> !StartsDate(name[i..], date)
      ensures i > 0 ==> name[i..] == tail[i - 1..]
    {
      DateAtIff(name, date);
      assert name[0..] == name;
    }
    if exists i: nat :: FirstDate(tail, i, key) {
      var i: nat :| FirstDate(tail, i, key);
      assert name[i + 1..] == tail[i..];
      assert FirstDate(name, i + 1, key);
    }
  }

  lemma OneFirstDate(name: string, i: nat, a: string, j: nat, b: string)
    requires FirstDate(name, i, a) && FirstDate(name, j, b)
    ensures a == b
  {
    DateAtIff(name[i..], a);
    DateAtIff(name[j..], b);
  }

  lemma OneKey(name: string, a: string, b: string)
    requires KeyOf(name, b)
    ensures KeyOf(name, a) <==> a == b
  {
    if i: nat, j: nat :| FirstDate(name, i, a) && FirstDate(name, j, b) {
      OneFirstDate(name, i, a, j, b);
    }
  }

  // ---------- folders ----------

  /** The group a path belongs to: the root, a folder of docs, or a top folder. */
  predicate FiledUnder(path: string, key: string) {
    if key == "." then '/' !in path
    else if StartsWith(key, "docs/") then '/' !in key[5..] && StartsWith(path, key + "/")
    else '/' !in key && StartsWith(path, key + "/") && (key == "docs" ==> '/' !in path[5..])
  }

  lemma GroupOfNested(s: string, rest: string)
    requires '/' !in s
    ensures Group("docs/" + s + "/" + rest) == "docs/" + s
  {
    assert "docs/" + s + "/" + rest == "docs" + ['/'] + (s + ['/'] + rest);
    SplitFirst("docs", '/', s + ['/'] + rest);
    SplitFirst(s, '/', rest);
  }

  lemma GroupOfTop(top: string, rest: string)
    requires '/' !in top && (top == "docs" ==> '/' !in rest)
    ensures Group(top + "/" + rest) == top
  {
    SplitFirst(top, '/', rest);
    if top == "docs" {
      SplitWhole(rest, '/');
    }
  }

  lemma GroupOfRoot(path: string)
    requires '/' !in path
    ensures Group(path) == "."
  {
    SplitWhole(path, '/');
  }

  /** Grouping files every path as its text says; `git` prints no path that starts
      with a dot component. */
  lemma GroupIff(path: string, key: string)
    requires !StartsWith(path, "./")
    ensures Group(path) == key <==> FiledUnder(path, key)
  {
    if FiledUnder(path, key) {
      FiledIsGroup(path, key);
    }
    GroupIsFiled(path);
  }

  lemma FiledIsGroup(path: string, key: string)
    requires FiledUnder(path, key)
    ensures Group(path) == key
  {
    if key == "." {
      GroupOfRoot(path);
    } else {
      var rest := path[|key| + 1..];
      assert path == key + "/" + rest;
      if StartsWith(key, "docs/") {
        assert key == "docs/" + key[5..];
        GroupOfNested(key[5..], rest);
      } else {
        if key == "docs" {
          assert path[5..] == rest;
        }
        GroupOfTop(key, rest);
      }
    }
  }

  lemma GroupIsFiled(path: string)
    requires !StartsWith(path, "./")
    ensures FiledUnder(path, Group(path))
  {
    var parts := Parts(path);
    JoinSplit(path, '/');
    PieceChars(path, '/', parts[0]);
    if |parts| > 1 {
      var rest := Join(parts[1..], "/");
      assert path == parts[0] + "/" + rest;
      PieceChars(path, '/', parts[1]);
      if parts[0] == "docs" && |parts| > 2 {
        NestedText(path);
      } else {
        TopText(path, rest);
      }
    }
  }

  lemma NestedText(path: string)
    requires |Parts(path)| > 2 && Parts(path)[0] == "docs"
    ensures FiledUnder(path, "docs/" + Parts(path)[1])
  {
    var parts := Parts(path);
    var s := parts[1];
    JoinSplit(path, '/');
    PieceChars(path, '/', s);
    assert parts[1..][1..] == parts[2..];
    var rest := Join(parts[2..], "/");
    assert path == "docs" + "/" + (s + "/" + rest);
    assert path == "docs/" + s + "/" + rest;
    assert ("docs/" + s)[5..] == s && ("docs/" + s)[..5] == "docs/";
  }

  lemma TopText(path: string, rest: string)
    requires !StartsWith(path, "./") && |Parts(path)| > 1 && path == Parts(path)[0] + "/" + rest
    requires '/' !in Parts(path)[0] && rest == Join(Parts(path)[1..], "/")
    requires Parts(path)[0] == "docs" ==> |Parts(path)| == 2
    ensures FiledUnder(path, Parts(path)[0])
  {
    var top := Parts(path)[0];
    assert path[..|top| + 1] == top + "/";
    if top == "docs" {
      assert Parts(path)[1..] == [Parts(path)[1]];
      PieceChars(path, '/', Parts(path)[1]);
      assert path[5..] == rest;
    }
    assert |top| >= 5 ==> top[4] in top;
  }
}
