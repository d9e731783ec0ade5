/** Repeated regeneration: when a run changes nothing, and what many runs reach. */
module DocSettle {
  import opened Outcomes
  import opened Text
  import opened Sorting
  import opened DocIndex
  import opened DocComplete
  import opened DocClean
  import opened DocRun
  import opened DocNames

  lemma PutReads(files: Files, path: string, text: string)
    requires Clean(text)
    ensures Reads(Put(files, path, text), path, text)
    ensures forall p :: p != path ==> (p in Put(files, path, text) <==> p in files)
    ensures forall p :: p != path && p in files ==> Put(files, path, text)[p] == files[p]
    ensures Put(files, path, text) == files <==> Reads(files, path, text)
  {}

  lemma IndexesDiffer()
    ensures ROOT_INDEX != DOCS_INDEX
  {}

  /** A run leaves both indexes reading as generated and touches no other file, so
      hand-written documents keep their contents and their titles. */
  lemma RunWritesOnlyIndexes(w: Wording, files: Files, known: seq<string>)
    requires CleanPaths(known)
    ensures Reads(Run(w, files, known), ROOT_INDEX, RootIndex(w, files, known))
    ensures Reads(Run(w, files, known), DOCS_INDEX, DocsIndex(w, files, known))
    ensures forall p :: p != ROOT_INDEX && p != DOCS_INDEX ==>
              (p in Run(w, files, known) <==> p in files) && (p in files ==> Run(w, files, known)[p] == files[p])
    ensures SameOtherTitles(files, Run(w, files, known))
  {
    IndexesDiffer();
    RootIndexIsClean(w, files, known);
    DocsIndexIsClean(w, files, known);
    PutReads(files, ROOT_INDEX, RootIndex(w, files, known));
    PutReads(Put(files, ROOT_INDEX, RootIndex(w, files, known)), DOCS_INDEX, DocsIndex(w, files, known));
    SameFileSameTitle(files, Run(w, files, known));
  }

  lemma SameFileSameTitle(f: Files, g: Files)
    requires forall p :: p != ROOT_INDEX && p != DOCS_INDEX ==> (p in g <==> p in f) && (p in f ==> g[p] == f[p])
    ensures SameOtherTitles(f, g)
  {}

  /** Both files exist and read as what would be generated from them now. */
  predicate UpToDate(w: Wording, files: Files, known: seq<string>) {
    && Reads(files, ROOT_INDEX, RootIndex(w, files, known))
    && Reads(files, DOCS_INDEX, DocsIndex(w, files, known))
  }

  lemma RunIsIdentityIff(w: Wording, files: Files, known: seq<string>)
    requires CleanPaths(known)
    ensures Run(w, files, known) == files <==> UpToDate(w, files, known)
  {
    RunWritesOnlyIndexes(w, files, known);
  }

  lemma HeadingOfTitle(title: string)
    requires 0 < |title| <= 110
    requires !IsPythonSpace(title[0]) && !IsPythonSpace(title[|title| - 1])
    ensures HeadingText("# " + title) == title
  {
    var line := "# " + title;
    assert line[1..] == " " + title;
    assert line[1..][1..] == title;
    assert TrimLeft(line, IsHash) == TrimLeft(line[1..], IsHash) == line[1..];
    assert TrimLeft(line[1..], IsPythonSpace) == TrimLeft(title, IsPythonSpace) == title;
    assert TrimRight(title, IsPythonSpace) == title;
  }

  lemma FirstLineFacts()
    ensures HeadingText(DOCS_FIRST_LINE) == DOCS_HEADING
    ensures StartsWith(DOCS_FIRST_LINE, "#") && '\n' !in DOCS_FIRST_LINE
  {
    HeadingOfTitle(DOCS_HEADING);
    DocsHeadingIsClean();
    assert DOCS_FIRST_LINE[..1] == "#";
  }

  /** A file that reads as a docs index carries the generated title. */
  lemma GeneratedTitle(w: Wording, files: Files, made: Files, known: seq<string>)
    requires Reads(files, DOCS_INDEX, DocsIndex(w, made, known))
    ensures Title(files, DOCS_INDEX) == DOCS_HEADING
  {
    var body := DocsBody(w, SubRows(made, known, SubFolders(known)), LinkRows(made, DirectDocs(known), Name));
    FirstLineFacts();
    SplitFirst(DOCS_FIRST_LINE, '\n', body);
  }

  /** A second run changes nothing exactly when docs/INDEX.md is untracked or
      already carried the generated title before the first. */
  lemma SecondRunIdleIff(w: Wording, files: Files, known: seq<string>)
    requires CleanPaths(known)
    ensures Run(w, Run(w, files, known), known) == Run(w, files, known)
       <==> DOCS_INDEX !in known || Title(files, DOCS_INDEX) == DOCS_HEADING
  {
    var once := Run(w, files, known);
    RunWritesOnlyIndexes(w, files, known);
    RunIsIdentityIff(w, once, known);
    DocsIndexReadsNoIndex(w, files, once, known);
    GeneratedTitle(w, once, files, known);
    RootIndexReadsOneTitle(w, files, once, known);
  }

  lemma ThirdRunIdle(w: Wording, files: Files, known: seq<string>)
    requires CleanPaths(known)
    ensures Run(w, Run(w, Run(w, files, known), known), known) == Run(w, Run(w, files, known), known)
  {
    RunWritesOnlyIndexes(w, files, known);
    GeneratedTitle(w, Run(w, files, known), files, known);
    SecondRunIdleIff(w, Run(w, files, known), known);
  }

  lemma {:induction false} FixedPointStays<T>(step: T -> T, x: T, n: nat)
    requires step(x) == x
    ensures Iterate(step, x, n) == x
    decreases n
  {
    if n > 0 {
      FixedPointStays(step, x, n - 1);
    }
  }

  lemma SettlesAfterTwo<T>(step: T -> T, x: T, n: nat)
    requires n >= 2 && step(step(step(x))) == step(step(x))
    ensures Iterate(step, x, n) == step(step(x))
  {
    FixedPointStays(step, step(step(x)), n - 2);
    assert Iterate(step, step(x), n - 1) == Iterate(step, step(step(x)), n - 2);
  }

  /** Regeneration settles: from any files, every run after the second changes nothing. */
  lemma RunsSettle(w: Wording, files: Files, known: seq<string>, n: nat)
    requires CleanPaths(known) && n >= 2
    ensures Runs(w, files, known, n) == Run(w, Run(w, files, known), known)
  {
    ThirdRunIdle(w, files, known);
    SettlesAfterTwo(fs => Run(w, fs, known), files, n);
  }

  /** One run is not always enough: with docs/INDEX.md tracked but not yet
      written, the second run rewrites the root index. */
  lemma FirstRunCanBeStale(w: Wording, files: Files)
    requires DOCS_INDEX !in files
    ensures Run(w, Run(w, files, [DOCS_INDEX]), [DOCS_INDEX]) != Run(w, files, [DOCS_INDEX])
  {
    StemOfDocsIndex(files);
    TrackedAlone();
    SecondRunIdleIff(w, files, [DOCS_INDEX]);
  }

  lemma StemOfDocsIndex(files: Files)
    requires DOCS_INDEX !in files
    ensures Title(files, DOCS_INDEX) != DOCS_HEADING
  {
    IndexParts();
    assert Title(files, DOCS_INDEX) == Stem("INDEX.md");
    assert |Stem("INDEX.md")| <= 8 < |DOCS_HEADING|;
  }

  lemma TrackedAlone()
    ensures CleanPaths([DOCS_INDEX])
  {
    assert OneLine(DOCS_INDEX);
  }

  /** Where the runs settle depends on the hand-written documents only: two
      checkouts that differ in what their generated files held before reach the
      same two indexes. */
  lemma SettledIndexesAgree(w: Wording, f: Files, g: Files, known: seq<string>)
    requires CleanPaths(known) && SameOtherTitles(f, g)
    ensures var a, b := Run(w, Run(w, f, known), known), Run(w, Run(w, g, known), known);
            && ROOT_INDEX in a && ROOT_INDEX in b && Universal(a[ROOT_INDEX]) == Universal(b[ROOT_INDEX])
            && DOCS_INDEX in a && DOCS_INDEX in b && Universal(a[DOCS_INDEX]) == Universal(b[DOCS_INDEX])
  {
    var p, q := Run(w, f, known), Run(w, g, known);
    RunWritesOnlyIndexes(w, f, known);
    RunWritesOnlyIndexes(w, g, known);
    GeneratedTitle(w, p, f, known);
    GeneratedTitle(w, q, g, known);
    RunWritesOnlyIndexes(w, p, known);
    RunWritesOnlyIndexes(w, q, known);
    RootIndexReadsOneTitle(w, p, q, known);
    DocsIndexReadsNoIndex(w, p, q, known);
  }

  // ---------- the program ----------

  lemma FilterAppend(xs: seq<string>, keep: string -> bool, i: nat)
    requires i < |xs|
    ensures Filter(xs[..i + 1], keep) == Filter(xs[..i], keep) + if keep(xs[i]) then [xs[i]] else []
    ensures !keep(xs[i]) ==> Filter(xs[..i + 1], keep) == Filter(xs[..i], keep)
  {
    assert xs[..i + 1][..i] == xs[..i];
  }

  lemma KeysAppend(xs: seq<string>, f: string -> string, i: nat)
    requires i < |xs|
    ensures Keys(xs[..i + 1], f)
         == if f(xs[i]) in Keys(xs[..i], f) then Keys(xs[..i], f) else Keys(xs[..i], f) + [f(xs[i])]
  {
    assert xs[..i + 1][..i] == xs[..i];
  }

  lemma MembersAppend(known: seq<string>, i: nat)
    requires i < |known|
    ensures forall key :: Members(known[..i + 1], key)
                       == Members(known[..i], key) + if Group(known[i]) == key then [known[i]] else []
  {
    assert known[..i + 1][..i] == known[..i];
    forall key
      ensures Members(known[..i + 1], key)
           == Members(known[..i], key) + if Group(known[i]) == key then [known[i]] else []
    {
      FilterAppend(known, path => Group(path) == key, i);
    }
  }

  function Lookup(groups: map<string, seq<string>>, key: string): seq<string> {
    if key in groups then groups[key] else []
  }

  /** `groups.setdefault(key, []).append(path)` */
  function Appended(groups: map<string, seq<string>>, key: string, path: string): (more: map<string, seq<string>>)
    ensures more.Keys == groups.Keys + {key}
    ensures forall k :: Lookup(more, k) == Lookup(groups, k) + if key == k then [path] else []
  {
    groups[key := Lookup(groups, key) + [path]]
  }

  lemma GroupStep(groups: map<string, seq<string>>, known: seq<string>, i: nat)
    requires i < |known| && forall key :: Lookup(groups, key) == Members(known[..i], key)
    ensures forall key :: Lookup(Appended(groups, Group(known[i]), known[i]), key) == Members(known[..i + 1], key)
  {
    MembersAppend(known, i);
  }

  /** The groups hold the documents their keys say; `git` prints no path that starts
      with a dot component. */
  ghost predicate Filed(known: seq<string>, groups: map<string, seq<string>>) {
    forall key, p :: !StartsWith(p, "./") ==> (p in Lookup(groups, key) <==> p in known && FiledUnder(p, key))
  }

  lemma MembersAreFiled(known: seq<string>, groups: map<string, seq<string>>)
    requires forall key :: Lookup(groups, key) == Members(known, key)
    ensures Filed(known, groups)
  {
    forall key, p | !StartsWith(p, "./")
      ensures p in Lookup(groups, key) <==> p in known && FiledUnder(p, key)
    {
      FilterMembers(known, path => Group(path) == key);
      GroupIff(p, key);
    }
  }

  lemma SectionAppended(files: Files, known: seq<string>, sections: seq<string>, j: nat)
    requires j < |sections|
    ensures Sections(files, known, sections[..j + 1])
         == Sections(files, known, sections[..j]) + Section(files, known, sections[j])
  {
    assert sections[..j + 1][..j] == sections[..j];
  }

  lemma SubRowsAppended(files: Files, known: seq<string>, subs: seq<string>, i: nat)
    requires i < |subs|
    ensures SubRows(files, known, subs[..i + 1]) == SubRows(files, known, subs[..i]) + FolderRows(files, known, subs[i])
  {
    assert subs[..i + 1][..i] == subs[..i];
  }

  /** One when a file is missing or does not read as it would be written. */
  function Stale(files: Files, path: string, text: string): nat {
    if Reads(files, path, text) then 0 else 1
  }

  /** A repository working tree. */
  class Checkout {
    const wording: Wording
    var files: Files

    constructor (wording: Wording, initial: Files)
      ensures this.wording == wording && files == initial
    {
      this.wording := wording;
      files := initial;
    }

    /** Scans a document for its first heading. */
    method ReadTitle(path: string) returns (title: string)
      ensures title == Title(files, path)
    {
      if path in files {
        var lines := Split(Universal(files[path]), '\n');
        for i := 0 to |lines|
          invariant FirstHeading(lines) == FirstHeading(lines[i..])
        {
          if StartsWith(lines[i], "#") {
            return HeadingText(lines[i]);
          }
        }
      }
      title := Stem(Name(path));
    }

    /** Groups the documents by folder; `order` is the insertion order of the keys. */
    static method GroupByFolder(known: seq<string>) returns (groups: map<string, seq<string>>, order: seq<string>)
      ensures order == Keys(known, Group)
      ensures forall key :: key in groups <==> key in order
      ensures forall key :: Lookup(groups, key) == Members(known, key)
      ensures Filed(known, groups)
    {
      groups, order := map[], [];
      for i := 0 to |known|
        invariant order == Keys(known[..i], Group)
        invariant forall key :: key in groups <==> key in order
        invariant forall key :: Lookup(groups, key) == Members(known[..i], key)
      {
        KeysAppend(known, Group, i);
        GroupStep(groups, known, i);
        order := if Group(known[i]) in groups then order else order + [Group(known[i])];
        groups := Appended(groups, Group(known[i]), known[i]);
      }
      assert known[..|known|] == known;
      MembersAreFiled(known, groups);
    }

    /** Sorts every group in turn and lists it under its heading. */
    method BuildRootIndex(known: seq<string>) returns (text: string)
      ensures text == RootIndex(wording, files, known)
    {
      var groups, order := GroupByFolder(known);
      var out: seq<Line> := [];
      var sections := Sort(order, SectionOrder);
      SortPermutes(order, SectionOrder);
      MultisetMembers(sections, order);
      DistinctPermutation(order, sections);
      for j := 0 to |sections|
        invariant out == Sections(files, known, sections[..j])
        invariant forall k :: j <= k < |sections| ==> Lookup(groups, sections[k]) == Members(known, sections[k])
      {
        var key := sections[j];
        groups := groups[key := Sort(Lookup(groups, key), NewerFirst)];
        out := out + SectionOf(files, key, groups[key]);
        SectionAppended(files, known, sections, j);
      }
      assert sections[..|sections|] == sections;
      text := Join(RenderAll(RootPreamble(wording) + out), "\n");
    }

    /** One row for every document directly under docs/, in path order. */
    method BuildDirectRows(known: seq<string>) returns (rows: seq<Line>)
      ensures rows == LinkRows(files, DirectDocs(known), Name)
    {
      rows := [];
      var sorted := Sort(known, StrLe);
      for i := 0 to |sorted|
        invariant rows == LinkRows(files, Filter(sorted[..i], DirectlyUnderDocs), Name)
      {
        var p := sorted[i];
        FilterAppend(sorted, DirectlyUnderDocs, i);
        if !DirectlyUnderDocs(p) {
          continue;
        }
        LinkRowsAppend(files, Filter(sorted[..i], DirectlyUnderDocs), p, Name);
        var title := ReadTitle(p);
        rows := rows + [Link(Name(p), Name(p), Titled(title))];
      }
      assert sorted[..|sorted|] == sorted;
    }

    /** The README of every sub-folder, then its other documents in tracked order. */
    method BuildSubRows(known: seq<string>) returns (rows: seq<Line>)
      ensures rows == SubRows(files, known, SubFolders(known))
    {
      rows := [];
      var subs := SubFolders(known);
      for i := 0 to |subs|
        invariant rows == SubRows(files, known, subs[..i])
      {
        var s := subs[i];
        var folder: seq<Line> := [];
        if SubReadme(s) in known {
          folder := [Link(s + "/", s + "/README.md", "")];
        }
        folder := folder + LinkRows(files, SubFiles(known, s), RelLink);
        rows := rows + folder;
        SubRowsAppended(files, known, subs, i);
      }
      assert subs[..|subs|] == subs;
    }

    method BuildDocsIndex(known: seq<string>) returns (text: string)
      ensures text == DocsIndex(wording, files, known)
    {
      var rows := BuildDirectRows(known);
      var subRows := BuildSubRows(known);
      text := DOCS_FIRST_LINE + "\n" + DocsBody(wording, subRows, rows);
    }

    /** The program: makes both texts, then writes those that differ from what is
        there, or with `check` only counts them. */
    method Regenerate(check: bool, lsFiles: string) returns (exit: int, changed: nat)
      modifies this
      ensures files == if check then old(files) else Run(wording, old(files), Tracked(lsFiles))
      ensures changed == Stale(old(files), ROOT_INDEX, RootIndex(wording, old(files), Tracked(lsFiles)))
                         + Stale(old(files), DOCS_INDEX, DocsIndex(wording, old(files), Tracked(lsFiles)))
      ensures changed == 0 <==> Run(wording, old(files), Tracked(lsFiles)) == old(files)
      ensures exit == if check && changed > 0 then 1 else 0
    {
      var known := Tracked(lsFiles);
      TrackedPathsAreClean(lsFiles);
      IndexesDiffer();
      RunIsIdentityIff(wording, files, known);
      var rootText := BuildRootIndex(known);
      var docsText := BuildDocsIndex(known);
      var targets := [(ROOT_INDEX, rootText), (DOCS_INDEX, docsText)];
      changed := 0;
      for i := 0 to |targets|
        invariant files == (if check || i == 0 then old(files)
                            else if i == 1 then Put(old(files), ROOT_INDEX, rootText)
                            else Run(wording, old(files), known))
        invariant i == 0 ==> changed == 0
        invariant i >= 1 ==> changed == Stale(old(files), ROOT_INDEX, rootText)
                                        + if i == 1 then 0 else Stale(old(files), DOCS_INDEX, docsText)
      {
        var (path, text) := targets[i];
        var current := if path in files then Some(Universal(files[path])) else None;
        if current != Some(text) {
          changed := changed + 1;
          if !check {
            files := files[path := text];
          }
        }
      }
      exit := if check && changed > 0 then 1 else 0;
    }

    /** Whatever the files held, after two runs a check passes. */
    method RegenerateTwiceThenCheck(lsFiles: string) returns (exit: int)
      modifies this
      ensures exit == 0
      ensures files == Runs(wording, old(files), Tracked(lsFiles), 2)
    {
      var known := Tracked(lsFiles);
      TrackedPathsAreClean(lsFiles);
      ghost var first := files;
      var _, _ := Regenerate(false, lsFiles);
      var _, _ := Regenerate(false, lsFiles);
      ThirdRunIdle(wording, first, known);
      RunsSettle(wording, first, known, 2);
      var code, _ := Regenerate(true, lsFiles);
      exit := code;
    }
  }
}
