/** Generated rows contain no line break. So the lines of a generated text are its
    rows, and a file reads back, under universal newlines, as exactly the text that
    was written to it. */
module DocClean {
  import opened Text
  import opened Sorting
  import opened DocIndex

  /** Text that universal newlines leave alone. */
  predicate Clean(s: string) {
    '\r' !in s
  }

  predicate CleanPaths(known: seq<string>) {
    forall p :: p in known ==> OneLine(p)
  }

  predicate CleanLines(lines: seq<Line>) {
    forall l :: l in lines ==> OneLine(l.Render())
  }

  /** Tracked paths contain no white space of any kind. */
  lemma TrackedPathsAreClean(lsFiles: string)
    ensures CleanPaths(Tracked(lsFiles))
  {
    FilterMembers(Words(lsFiles), path => forall part :: part in Parts(path) ==> part !in SKIP_DIRS);
    assert IsPythonSpace('\r') && IsPythonSpace('\n');
  }

  lemma {:induction false} HeadingIsClean(lines: seq<string>)
    requires forall l :: l in lines ==> OneLine(l)
    ensures FirstHeading(lines).Some? ==> OneLine(FirstHeading(lines).value)
  {
    if lines != [] {
      assert lines[0] in lines;
      HeadingIsClean(lines[1..]);
    }
  }

  lemma TitleIsClean(files: Files, path: string)
    requires OneLine(path)
    ensures OneLine(Title(files, path))
  {
    PieceChars(path, '/', Name(path));
    if path in files {
      var lines := Split(Universal(files[path]), '\n');
      forall l | l in lines
        ensures OneLine(l)
      {
        PieceChars(Universal(files[path]), '\n', l);
      }
      HeadingIsClean(lines);
    }
  }

  lemma RenderedAreClean(lines: seq<Line>)
    requires CleanLines(lines)
    ensures forall t :: t in RenderAll(lines) ==> OneLine(t)
  {
    var texts := RenderAll(lines);
    forall t | t in texts
      ensures OneLine(t)
    {
      var i :| 0 <= i < |texts| && texts[i] == t;
      assert lines[i] in lines;
    }
  }

  /** The lines of a joined text are the rows it was joined from. */
  lemma JoinIsClean(lines: seq<Line>)
    requires lines != [] && CleanLines(lines)
    ensures Clean(Join(RenderAll(lines), "\n"))
    ensures Split(Join(RenderAll(lines), "\n"), '\n') == RenderAll(lines)
  {
    RenderedAreClean(lines);
    JoinChars(RenderAll(lines), "\n", '\r');
    SplitJoin(RenderAll(lines), '\n');
  }

  lemma OneLineConcat(a: string, b: string)
    requires OneLine(a) && OneLine(b)
    ensures OneLine(a + b)
  {}

  lemma LinkIsClean(text: string, target: string, suffix: string)
    requires OneLine(text) && OneLine(target) && OneLine(suffix)
    ensures OneLine(Link(text, target, suffix).Render())
  {}

  lemma TitledIsClean(title: string)
    requires OneLine(title)
    ensures OneLine(Titled(title))
  {}

  lemma LinkRowsAreClean(files: Files, paths: seq<string>, link: string -> string)
    requires forall p :: p in paths ==> OneLine(p) && OneLine(link(p))
    ensures CleanLines(LinkRows(files, paths, link))
  {
    forall i | 0 <= i < |paths|
      ensures OneLine(LinkRow(files, paths[i], link(paths[i])).Render())
    {
      assert paths[i] in paths;
      TitleIsClean(files, paths[i]);
      TitledIsClean(Title(files, paths[i]));
      LinkIsClean(link(paths[i]), link(paths[i]), Titled(Title(files, paths[i])));
    }
  }

  // ---------- the root index ----------

  lemma ListedAreTracked(known: seq<string>, key: string)
    ensures forall p :: p in Listed(known, key) ==> p in known
  {
    var sorted := Sort(Members(known, key), NewerFirst);
    FilterMembers(known, path => Group(path) == key);
    SortPermutes(Members(known, key), NewerFirst);
    MultisetMembers(sorted, Members(known, key));
    FilterMembers(sorted, IsListed);
  }

  lemma HeadingIsCleanText(key: string)
    requires OneLine(key)
    ensures OneLine(SectionHeading(key))
  {}

  lemma SectionIsClean(files: Files, known: seq<string>, key: string)
    requires CleanPaths(known) && OneLine(key)
    ensures CleanLines(Section(files, known, key))
  {
    ListedAreTracked(known, key);
    LinkRowsAreClean(files, Listed(known, key), Whole);
    HeadingIsCleanText(key);
    var head := [Prose(SectionHeading(key)), Prose("")];
    assert CleanLines(head);
    assert Section(files, known, key) == head + LinkRows(files, Listed(known, key), Whole) + [Prose("")];
  }

  lemma {:induction false} SectionsAreClean(files: Files, known: seq<string>, keys: seq<string>)
    requires CleanPaths(known) && CleanPaths(keys)
    ensures CleanLines(Sections(files, known, keys))
  {
    if keys != [] {
      SectionsAreClean(files, known, keys[..|keys| - 1]);
      SectionIsClean(files, known, keys[|keys| - 1]);
    }
  }

  lemma GroupIsClean(path: string)
    requires OneLine(path)
    ensures OneLine(Group(path))
  {
    var parts := Parts(path);
    PieceChars(path, '/', parts[0]);
    if |parts| > 1 {
      PieceChars(path, '/', parts[1]);
      OneLineConcat("docs/", parts[1]);
    }
  }

  lemma SectionKeysAreClean(known: seq<string>)
    requires CleanPaths(known)
    ensures CleanPaths(SectionKeys(known))
  {
    var keys := Keys(known, Group);
    SortPermutes(keys, SectionOrder);
    MultisetMembers(SectionKeys(known), keys);
    forall key | key in keys
      ensures OneLine(key)
    {
      var path :| path in known && Group(path) == key;
      GroupIsClean(path);
    }
  }

  lemma RootPreambleIsClean(w: Wording)
    ensures CleanLines(RootPreamble(w))
  {
    assert OneLine("## Folder indexes") && OneLine("");
  }

  /** The root text holds one line per row and no carriage return. */
  lemma RootIndexIsClean(w: Wording, files: Files, known: seq<string>)
    requires CleanPaths(known)
    ensures Clean(RootIndex(w, files, known))
    ensures Split(RootIndex(w, files, known), '\n') == RenderAll(RootLines(w, files, known))
  {
    RootPreambleIsClean(w);
    SectionKeysAreClean(known);
    SectionsAreClean(files, known, SectionKeys(known));
    JoinIsClean(RootLines(w, files, known));
  }

  // ---------- the docs index ----------

  lemma {:induction false} SubRowsAreClean(files: Files, known: seq<string>, subs: seq<string>)
    requires CleanPaths(known) && CleanPaths(subs)
    ensures CleanLines(SubRows(files, known, subs))
  {
    if subs != [] {
      var s := subs[|subs| - 1];
      SubRowsAreClean(files, known, subs[..|subs| - 1]);
      FilterMembers(known, path => StartsWith(path, SubPrefix(s)) && path != SubReadme(s));
      LinkRowsAreClean(files, SubFiles(known, s), RelLink);
      assert s in subs;
      OneLineConcat(s, "/");
      OneLineConcat(s, "/README.md");
      LinkIsClean(s + "/", s + "/README.md", "");
    }
  }

  lemma SubFoldersAreClean(known: seq<string>)
    requires CleanPaths(known)
    ensures CleanPaths(SubFolders(known))
  {
    var nested := Filter(known, InSubFolder);
    var keys := Keys(nested, SubFolder);
    FilterMembers(known, InSubFolder);
    SortPermutes(keys, StrLe);
    MultisetMembers(SubFolders(known), keys);
    forall s | s in keys
      ensures OneLine(s)
    {
      var path :| path in nested && SubFolder(path) == s;
      PieceChars(path, '/', s);
    }
  }

  lemma DocsRowsAreClean(files: Files, known: seq<string>)
    requires CleanPaths(known)
    ensures CleanLines(SubRows(files, known, SubFolders(known)))
    ensures CleanLines(LinkRows(files, DirectDocs(known), Name))
  {
    SubFoldersAreClean(known);
    SubRowsAreClean(files, known, SubFolders(known));
    SortPermutes(known, StrLe);
    MultisetMembers(Sort(known, StrLe), known);
    FilterMembers(Sort(known, StrLe), DirectlyUnderDocs);
    forall p | p in DirectDocs(known)
      ensures OneLine(p) && OneLine(Name(p))
    {
      PieceChars(p, '/', Name(p));
    }
    LinkRowsAreClean(files, DirectDocs(known), Name);
  }

  lemma RenderConcat(a: seq<Line>, b: seq<Line>)
    requires a != [] && b != []
    ensures Join(RenderAll(a + b), "\n") == Join(RenderAll(a), "\n") + "\n" + Join(RenderAll(b), "\n")
  {
    assert RenderAll(a + b) == RenderAll(a) + RenderAll(b);
    JoinConcat(RenderAll(a), RenderAll(b), "\n");
  }

  /** The concatenated docs text is the joined lines. */
  lemma DocsTextIsLines(w: Wording, subRows: seq<Line>, rows: seq<Line>)
    ensures DOCS_FIRST_LINE + "\n" + DocsBody(w, subRows, rows)
         == Join(RenderAll(DocsLinesOf(w, subRows, rows)), "\n")
  {
    var folders, direct := Otherwise(subRows, NO_FOLDERS), Otherwise(rows, "");
    RenderConcat(DocsTop(w), folders);
    RenderConcat(DocsTop(w) + folders, DocsMiddle());
    RenderConcat(DocsTop(w) + folders + DocsMiddle(), direct);
    RenderConcat(DocsTop(w) + folders + DocsMiddle() + direct, [Prose("")]);
    DocsTopText(w);
    DocsMiddleText();
    RowsOrRemark(subRows, NO_FOLDERS);
    RowsOrRemark(rows, "");
    Regroup(DOCS_FIRST_LINE, w.docsIntro, SUB_HEADING, Join(RenderAll(folders), "\n"), DIRECT_HEADING,
            Join(RenderAll(direct), "\n"));
  }

  lemma DocsTopText(w: Wording)
    ensures Join(RenderAll(DocsTop(w)), "\n")
         == DOCS_FIRST_LINE + "\n" + "\n" + (w.docsIntro + "\n") + "\n" + (SUB_HEADING + "\n")
  {
    var title, intro := [Prose(DOCS_FIRST_LINE), Prose("")], [Prose(w.docsIntro), Prose("")];
    var sub := [Prose(SUB_HEADING), Prose("")];
    SpacedLines(DOCS_FIRST_LINE);
    SpacedLines(w.docsIntro);
    SpacedLines(SUB_HEADING);
    RenderConcat(title, intro);
    RenderConcat(title + intro, sub);
    assert DocsTop(w) == title + intro + sub;
  }

  lemma DocsMiddleText()
    ensures Join(RenderAll(DocsMiddle()), "\n") == "" + "\n" + (DIRECT_HEADING + "\n")
  {
    SpacedLines(DIRECT_HEADING);
    RenderConcat([Prose("")], [Prose(DIRECT_HEADING), Prose("")]);
    assert DocsMiddle() == [Prose("")] + [Prose(DIRECT_HEADING), Prose("")];
  }

  lemma SpacedLines(text: string)
    ensures Join(RenderAll([Prose(text), Prose("")]), "\n") == text + "\n"
    ensures Join(RenderAll([Prose("")]), "\n") == ""
  {
    assert RenderAll([Prose(text), Prose("")]) == [text] + [""];
    JoinConcat([text], [""], "\n");
  }

  lemma RowsOrRemark(rows: seq<Line>, remark: string)
    ensures Join(RenderAll(Otherwise(rows, remark)), "\n")
         == if rows != [] then Join(RenderAll(rows), "\n") else remark
  {}

  /** Line breaks written singly or in pairs are the same text. */
  lemma Regroup(title: string, intro: string, sub: string, folders: string, direct: string, rows: string)
    ensures title + "\n" + ("\n" + intro + "\n\n" + sub + "\n\n" + folders + "\n\n" + direct + "\n\n" + rows + "\n")
         == title + "\n" + "\n" + (intro + "\n") + "\n" + (sub + "\n") + "\n" + folders + "\n"
            + ("" + "\n" + (direct + "\n")) + "\n" + rows + "\n" + ""
  {
    Pair(title + "\n" + "\n" + intro, sub);
    Pair(title + "\n" + "\n" + intro + "\n\n" + sub, folders);
    Pair(title + "\n" + "\n" + intro + "\n\n" + sub + "\n\n" + folders, direct);
    Pair(title + "\n" + "\n" + intro + "\n\n" + sub + "\n\n" + folders + "\n\n" + direct, rows);
  }

  lemma Pair(before: string, after: string)
    ensures before + "\n\n" + after == before + "\n" + "\n" + after
  {
    assert "\n\n" == "\n" + "\n";
  }

  lemma FixedDocsLinesAreClean()
    ensures OneLine(DOCS_FIRST_LINE) && OneLine(SUB_HEADING) && OneLine(NO_FOLDERS) && OneLine(DIRECT_HEADING)
  {
    DirectHeadingIsClean();
    DocsHeadingIsClean();
    OneLineConcat("# ", DOCS_HEADING);
  }

  lemma DirectHeadingIsClean()
    ensures OneLine(DIRECT_HEADING)
  {}

  lemma DocsHeadingIsClean()
    ensures OneLine(DOCS_HEADING)
  {}

  lemma DocsLinesAreClean(w: Wording, subRows: seq<Line>, rows: seq<Line>)
    requires CleanLines(subRows) && CleanLines(rows)
    ensures CleanLines(DocsLinesOf(w, subRows, rows))
  {
    FixedDocsLinesAreClean();
    assert OneLine("");
    assert CleanLines(DocsTop(w)) && CleanLines(DocsMiddle());
  }

  /** The docs text holds one line per row and no carriage return. */
  lemma DocsIndexIsClean(w: Wording, files: Files, known: seq<string>)
    requires CleanPaths(known)
    ensures Clean(DocsIndex(w, files, known))
    ensures Split(DocsIndex(w, files, known), '\n') == RenderAll(DocsLines(w, files, known))
  {
    DocsRowsAreClean(files, known);
    DocsLinesAreClean(w, SubRows(files, known, SubFolders(known)), LinkRows(files, DirectDocs(known), Name));
    DocsTextIsLines(w, SubRows(files, known, SubFolders(known)), LinkRows(files, DirectDocs(known), Name));
    JoinIsClean(DocsLines(w, files, known));
  }

  /** Line by line, the generated texts are the rows for the tracked documents. */
  lemma GeneratedLines(w: Wording, files: Files, lsFiles: string)
    ensures var known := Tracked(lsFiles);
            && Split(RootIndex(w, files, known), '\n') == RenderAll(RootLines(w, files, known))
            && Split(DocsIndex(w, files, known), '\n') == RenderAll(DocsLines(w, files, known))
  {
    TrackedPathsAreClean(lsFiles);
    RootIndexIsClean(w, files, Tracked(lsFiles));
    DocsIndexIsClean(w, files, Tracked(lsFiles));
  }
}
