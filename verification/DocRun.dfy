/** Regenerating the indexes: one run over the files, what it reads and writes,
    and how repeated runs settle. */
module DocRun {
  import opened Text
  import opened Sorting
  import opened DocIndex
  import opened DocComplete

  predicate Reads(files: Files, path: string, text: string) {
    path in files && Universal(files[path]) == text
  }

  /** Writes `text` unless the file already reads as it. */
  function Put(files: Files, path: string, text: string): Files {
    if Reads(files, path, text) then files else files[path := text]
  }

  /** One run. Both texts are made before either file is written. */
  function Run(w: Wording, files: Files, known: seq<string>): Files {
    Put(Put(files, ROOT_INDEX, RootIndex(w, files, known)), DOCS_INDEX, DocsIndex(w, files, known))
  }

  function Iterate<T>(step: T -> T, x: T, n: nat): T
    decreases n
  {
    if n == 0 then x else Iterate(step, step(x), n - 1)
  }

  function Runs(w: Wording, files: Files, known: seq<string>, n: nat): Files {
    Iterate(fs => Run(w, fs, known), files, n)
  }

  // ---------- what each index reads ----------

  /** The files agree on every title but those of the two generated files. */
  ghost predicate SameOtherTitles(f: Files, g: Files) {
    forall p :: p != ROOT_INDEX && p != DOCS_INDEX ==> Title(f, p) == Title(g, p)
  }

  lemma IndexParts()
    ensures Parts(ROOT_INDEX) == ["INDEX.md"] && Parts(DOCS_INDEX) == ["docs", "INDEX.md"]
  {
    SplitWhole("INDEX.md", '/');
    TwoParts("INDEX.md");
  }

  lemma LinkRowsSame(f: Files, g: Files, paths: seq<string>, link: string -> string)
    requires forall p :: p in paths ==> Title(f, p) == Title(g, p)
    ensures LinkRows(f, paths, link) == LinkRows(g, paths, link)
  {}

  lemma {:induction false} SubRowsSame(f: Files, g: Files, known: seq<string>, subs: seq<string>)
    requires SameOtherTitles(f, g) && forall s :: s in subs ==> '/' !in s
    ensures SubRows(f, known, subs) == SubRows(g, known, subs)
  {
    if subs != [] {
      var s := subs[|subs| - 1];
      SubRowsSame(f, g, known, subs[..|subs| - 1]);
      FilterMembers(known, path => StartsWith(path, SubPrefix(s)) && path != SubReadme(s));
      forall p | p in SubFiles(known, s)
        ensures Title(f, p) == Title(g, p)
      {
        PrefixIsFolder(p, s);
        IndexParts();
      }
      LinkRowsSame(f, g, SubFiles(known, s), RelLink);
    }
  }

  /** The docs index reads the title of no generated file. */
  lemma DocsIndexReadsNoIndex(w: Wording, f: Files, g: Files, known: seq<string>)
    requires SameOtherTitles(f, g)
    ensures DocsIndex(w, f, known) == DocsIndex(w, g, known)
  {
    SubFoldersCover(known);
    SubRowsSame(f, g, known, SubFolders(known));
    FilterMembers(Sort(known, StrLe), DirectlyUnderDocs);
    IndexParts();
    LinkRowsSame(f, g, DirectDocs(known), Name);
  }

  /** The same line, up to the title that a row carries. */
  ghost predicate ParallelLine(f: Files, g: Files, l: Line, m: Line) {
    if l.Link? then l == LinkRow(f, l.target, l.target) && m == LinkRow(g, l.target, l.target) else l == m
  }

  ghost predicate Parallel(f: Files, g: Files, a: seq<Line>, b: seq<Line>) {
    |a| == |b| && forall i :: 0 <= i < |a| ==> ParallelLine(f, g, a[i], b[i])
  }

  lemma ParallelConcat(f: Files, g: Files, a: seq<Line>, b: seq<Line>, c: seq<Line>, d: seq<Line>)
    requires Parallel(f, g, a, b) && Parallel(f, g, c, d)
    ensures Parallel(f, g, a + c, b + d)
  {}

  lemma ProseParallel(f: Files, g: Files, lines: seq<Line>)
    requires forall l :: l in lines ==> l.Prose?
    ensures Parallel(f, g, lines, lines)
  {
    assert forall i :: 0 <= i < |lines| ==> lines[i] in lines;
  }

  lemma SectionParallel(f: Files, g: Files, known: seq<string>, key: string)
    ensures Parallel(f, g, Section(f, known, key), Section(g, known, key))
  {}

  lemma {:induction false} SectionsParallel(f: Files, g: Files, known: seq<string>, keys: seq<string>)
    ensures Parallel(f, g, Sections(f, known, keys), Sections(g, known, keys))
  {
    if keys != [] {
      var front, last := keys[..|keys| - 1], keys[|keys| - 1];
      SectionsParallel(f, g, known, front);
      SectionParallel(f, g, known, last);
      ParallelConcat(f, g, Sections(f, known, front), Sections(g, known, front),
                     Section(f, known, last), Section(g, known, last));
    }
  }

  lemma RootLinesParallel(w: Wording, f: Files, g: Files, known: seq<string>)
    ensures Parallel(f, g, RootLines(w, f, known), RootLines(w, g, known))
  {
    var keys := SectionKeys(known);
    SectionsParallel(f, g, known, keys);
    ProseParallel(f, g, RootPreamble(w));
    ParallelConcat(f, g, RootPreamble(w), RootPreamble(w), Sections(f, known, keys), Sections(g, known, keys));
  }

  lemma {:induction false} TargetHasLine(lines: seq<Line>, t: string)
    ensures t in Targets(lines) <==> exists i :: 0 <= i < |lines| && lines[i].Link? && lines[i].target == t
  {
    if lines != [] {
      TargetHasLine(lines[1..], t);
      if t in Targets(lines[1..]) {
        var i :| 0 <= i < |lines| - 1 && lines[1..][i].Link? && lines[1..][i].target == t;
        assert lines[i + 1].target == t;
      }
      if exists i :: 0 <= i < |lines| && lines[i].Link? && lines[i].target == t {
        var i :| 0 <= i < |lines| && lines[i].Link? && lines[i].target == t;
        if i > 0 {
          assert lines[1..][i - 1].target == t;
        }
      }
    }
  }

  /** A path has a row in the root index exactly when it is tracked and is not the
      root index itself. */
  lemma RootHasRow(w: Wording, files: Files, known: seq<string>, path: string)
    ensures path in Targets(RootLines(w, files, known)) <==> path in known && path != ROOT_INDEX
  {
    RootIndexComplete(w, files, known);
    FilterMembers(known, IsListed);
    MultisetMembers(Targets(RootLines(w, files, known)), Filter(known, IsListed));
  }

  /** The root index is the same text exactly when docs/INDEX.md has the same
      title, or is not tracked. */
  lemma RootIndexReadsOneTitle(w: Wording, f: Files, g: Files, known: seq<string>)
    requires SameOtherTitles(f, g)
    ensures RootIndex(w, f, known) == RootIndex(w, g, known)
       <==> DOCS_INDEX !in known || Title(f, DOCS_INDEX) == Title(g, DOCS_INDEX)
  {
    RootLinesParallel(w, f, g, known);
    LinkTargetsTracked(w, f, known);
    if DOCS_INDEX in known {
      IndexParts();
      RootHasRow(w, f, known, DOCS_INDEX);
      TargetHasLine(RootLines(w, f, known), DOCS_INDEX);
    }
    ParallelText(f, g, known, RootLines(w, f, known), RootLines(w, g, known));
  }

  ghost predicate HasLink(lines: seq<Line>, target: string) {
    exists i :: 0 <= i < |lines| && lines[i].Link? && lines[i].target == target
  }

  lemma LinkTargetsTracked(w: Wording, files: Files, known: seq<string>)
    ensures forall t :: HasLink(RootLines(w, files, known), t) <==> t in known && t != ROOT_INDEX
  {
    forall t
      ensures HasLink(RootLines(w, files, known), t) <==> t in known && t != ROOT_INDEX
    {
      TargetHasLine(RootLines(w, files, known), t);
      RootHasRow(w, files, known, t);
    }
  }

  lemma ParallelText(f: Files, g: Files, known: seq<string>, a: seq<Line>, b: seq<Line>)
    requires SameOtherTitles(f, g) && Parallel(f, g, a, b)
    requires forall t :: HasLink(a, t) <==> t in known && t != ROOT_INDEX
    ensures Join(RenderAll(a), "\n") == Join(RenderAll(b), "\n")
       <==> DOCS_INDEX !in known || Title(f, DOCS_INDEX) == Title(g, DOCS_INDEX)
  {
    forall i | 0 <= i < |a| && a[i].Link?
      ensures a[i].target in known && a[i].target != ROOT_INDEX
    {
      assert HasLink(a, a[i].target);
    }
    if DOCS_INDEX !in known || Title(f, DOCS_INDEX) == Title(g, DOCS_INDEX) {
      assert a == b;
    } else {
      IndexParts();
      assert HasLink(a, DOCS_INDEX);
      var i :| 0 <= i < |a| && a[i].Link? && a[i].target == DOCS_INDEX;
      DifferentTitlesDiffer(f, g, a, b, i);
    }
  }

  lemma RenderedRow(files: Files, path: string)
    ensures LinkRow(files, path, path).Render() == "- [" + path + "](" + path + ")" + " \U{2014} " + Title(files, path)
  {}

  lemma SameRender(f: Files, g: Files, path: string)
    requires LinkRow(f, path, path).Render() == LinkRow(g, path, path).Render()
    ensures Title(f, path) == Title(g, path)
  {
    var head := "- [" + path + "](" + path + ")" + " \U{2014} ";
    RenderedRow(f, path);
    RenderedRow(g, path);
    assert Title(f, path) == (head + Title(f, path))[|head|..];
    assert Title(g, path) == (head + Title(g, path))[|head|..];
  }

  /** Parallel lines in which only one path's title differs do not join to one text. */
  lemma DifferentTitlesDiffer(f: Files, g: Files, a: seq<Line>, b: seq<Line>, i: nat)
    requires Parallel(f, g, a, b)
    requires i < |a| && a[i].Link? && Title(f, a[i].target) != Title(g, a[i].target)
    requires forall j :: 0 <= j < |a| && a[j].Link? && a[j].target != a[i].target ==> a[j] == b[j]
    ensures Join(RenderAll(a), "\n") != Join(RenderAll(b), "\n")
  {
    var path := a[i].target;
    var s, t := RenderAll(a), RenderAll(b);
    forall j | 0 <= j < |a|
      ensures a[j] == b[j] || (a[j] == LinkRow(f, path, path) && b[j] == LinkRow(g, path, path))
    {
    }
    var shift := |Title(g, path)| - |Title(f, path)|;
    RenderedRow(f, path);
    RenderedRow(g, path);
    assert forall j :: 0 <= j < |s| ==> |t[j]| == |s[j]| || |t[j]| == |s[j]| + shift;
    assert |t[i]| == |s[i]| + shift;
    if shift == 0 {
      if Join(s, "\n") == Join(t, "\n") {
        JoinInjective(s, t, "\n");
        assert s[i] == t[i];
        SameRender(f, g, path);
      }
    } else if shift > 0 {
      JoinLength(s, t, "\n");
    } else {
      JoinLength(t, s, "\n");
    }
  }
}
