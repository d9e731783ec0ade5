/** The generated texts line by line, and where each document stands in them. */
module DocLayout {
  import opened Text
  import opened Sorting
  import opened DocIndex
  import opened DocComplete
  import opened DocClean
  import opened DocRun
  import opened DocNames

  // ---------- lines as text ----------

  /** A titled link. */
  function RowText(target: string, title: string): string {
    "- [" + target + "](" + target + ") \U{2014} " + title
  }

  /** One row text for every path, linking what `link` makes of the path. */
  function RowTexts(files: Files, paths: seq<string>, link: string -> string): seq<string> {
    seq(|paths|, i requires 0 <= i < |paths| => RowText(link(paths[i]), Title(files, paths[i])))
  }

  lemma RenderRow(files: Files, path: string, target: string)
    ensures LinkRow(files, path, target).Render() == RowText(target, Title(files, path))
  {
    assert ")" + " \U{2014} " == ") \U{2014} ";
  }

  lemma RenderRows(files: Files, paths: seq<string>, link: string -> string)
    ensures RenderAll(LinkRows(files, paths, link)) == RowTexts(files, paths, link)
  {
    forall i | 0 <= i < |paths|
      ensures RenderAll(LinkRows(files, paths, link))[i] == RowTexts(files, paths, link)[i]
    {
      RenderRow(files, paths[i], link(paths[i]));
    }
  }

  lemma RenderSplit(a: seq<Line>, b: seq<Line>)
    ensures RenderAll(a + b) == RenderAll(a) + RenderAll(b)
  {}

  lemma RenderProse(text: string)
    ensures RenderAll([Prose(text)]) == [text]
    ensures RenderAll([Prose(text), Prose("")]) == [text, ""]
  {}

  // ---------- the root index ----------

  function HeadingOfKey(key: string): string {
    if key == "." then "## Root-level documents" else "## `" + key + "/`"
  }

  /** The lines of a section: its heading, its rows newest first, and blank lines. */
  function SectionText(files: Files, known: seq<string>): string -> seq<string> {
    key => [HeadingOfKey(key), ""] + RowTexts(files, Listed(known, key), Whole) + [""]
  }

  lemma {:induction false} SectionsText(files: Files, known: seq<string>, keys: seq<string>)
    ensures RenderAll(Sections(files, known, keys)) == FlatMap(keys, SectionText(files, known))
  {
    if keys != [] {
      var front, last := keys[..|keys| - 1], keys[|keys| - 1];
      SectionsText(files, known, front);
      RenderSplit(Sections(files, known, front), Section(files, known, last));
      OneSection(files, known, last);
    }
  }

  lemma OneSection(files: Files, known: seq<string>, key: string)
    ensures RenderAll(Section(files, known, key)) == SectionText(files, known)(key)
  {
    var head, rows := [Prose(SectionHeading(key)), Prose("")], LinkRows(files, Listed(known, key), Whole);
    assert Section(files, known, key) == head + rows + [Prose("")];
    RenderSplit(head + rows, [Prose("")]);
    RenderSplit(head, rows);
    RenderProse(SectionHeading(key));
    RenderProse("");
    RenderRows(files, Listed(known, key), Whole);
  }

  lemma PreambleText(w: Wording)
    ensures RenderAll(RootPreamble(w)) == [w.title, "", w.intro, "", "## Folder indexes", "", w.folders, ""]
  {}

  /** The root index, line by line. */
  lemma RootLayout(w: Wording, files: Files, known: seq<string>)
    requires CleanPaths(known)
    ensures Split(RootIndex(w, files, known), '\n')
         == [w.title, "", w.intro, "", "## Folder indexes", "", w.folders, ""]
            + FlatMap(SectionKeys(known), SectionText(files, known))
  {
    RootIndexIsClean(w, files, known);
    RenderSplit(RootPreamble(w), Sections(files, known, SectionKeys(known)));
    PreambleText(w);
    SectionsText(files, known, SectionKeys(known));
  }

  /** The heading above a row of the root index, from the path it links: documents at
      the root, those of a folder of docs, and those of any other top folder. */
  lemma RowHeading(w: Wording, files: Files, known: seq<string>, i: nat, top: string, rest: string)
    requires i < |RootLines(w, files, known)| && RootLines(w, files, known)[i].Link?
    ensures var path, heading := RootLines(w, files, known)[i].target, LastHeading(RootLines(w, files, known)[..i]);
            && ('/' !in path ==> heading == "## Root-level documents")
            && ('/' !in top && path == "docs/" + top + "/" + rest ==> heading == "## `docs/" + top + "/`")
            && ('/' !in top && top != "." && (top == "docs" ==> '/' !in rest) && path == top + "/" + rest ==>
                  heading == "## `" + top + "/`")
  {
    var path := RootLines(w, files, known)[i].target;
    RowsUnderOwnHeading(w, files, known);
    assert OwnHeading(RootLines(w, files, known)[..i], RootLines(w, files, known)[i]);
    if '/' !in path {
      GroupOfRoot(path);
    }
    if '/' !in top && path == "docs/" + top + "/" + rest {
      GroupOfNested(top, rest);
      NestedHeading(top);
    }
    if '/' !in top && top != "." && (top == "docs" ==> '/' !in rest) && path == top + "/" + rest {
      GroupOfTop(top, rest);
    }
  }

  lemma NestedHeading(s: string)
    ensures SectionHeading("docs/" + s) == "## `docs/" + s + "/`"
  {
    assert "docs/" + s != ".";
    assert "## `" + "docs/" == "## `docs/";
  }

  // ---------- the docs index ----------

  /** A document of the given folder of docs, other than its README. */
  function InDocsFolder(s: string): string -> bool {
    path => StartsWith(path, "docs/" + s + "/") && path != "docs/" + s + "/README.md"
  }

  /** The rows of a folder: its README, then its other documents as tracked. */
  function FolderText(files: Files, known: seq<string>): string -> seq<string> {
    s => (if "docs/" + s + "/README.md" in known then ["- [" + s + "/](" + s + "/README.md)"] else [])
         + RowTexts(files, Filter(known, InDocsFolder(s)), RelLink)
  }

  lemma FolderPrefix(s: string)
    ensures SubPrefix(s) == "docs/" + s + "/" && SubReadme(s) == "docs/" + s + "/README.md"
  {
    assert "/" + "README.md" == "/README.md";
  }

  lemma ReadmeText(s: string)
    ensures RenderAll([Link(s + "/", s + "/README.md", "")]) == ["- [" + s + "/](" + s + "/README.md)"]
  {
    ReadmeRow("- [", s);
  }

  lemma ReadmeRow(start: string, s: string)
    ensures start + (s + "/") + "](" + (s + "/README.md") + ")" + "" == start + s + "/](" + s + "/README.md)"
  {
    assert start + (s + "/") + "](" == start + s + "/](";
    assert s + "/README.md" + ")" + "" == s + "/README.md)";
  }

  lemma OneFolder(files: Files, known: seq<string>, s: string)
    ensures RenderAll(FolderRows(files, known, s)) == FolderText(files, known)(s)
  {
    var readme := if SubReadme(s) in known then [Link(s + "/", s + "/README.md", "")] else [];
    FolderPrefix(s);
    FilterCongruent(known, path => StartsWith(path, SubPrefix(s)) && path != SubReadme(s), InDocsFolder(s));
    RenderSplit(readme, LinkRows(files, SubFiles(known, s), RelLink));
    ReadmeText(s);
    RenderRows(files, SubFiles(known, s), RelLink);
  }

  lemma {:induction false} FoldersText(files: Files, known: seq<string>, subs: seq<string>)
    ensures RenderAll(SubRows(files, known, subs)) == FlatMap(subs, FolderText(files, known))
  {
    if subs != [] {
      var front, last := subs[..|subs| - 1], subs[|subs| - 1];
      FoldersText(files, known, front);
      RenderSplit(SubRows(files, known, front), FolderRows(files, known, last));
      OneFolder(files, known, last);
    }
  }

  lemma DocsTopText(w: Wording)
    ensures RenderAll(DocsTop(w))
         == ["# docs/ index (complete, generated)", "", w.docsIntro, "", "## Sub-folders", ""]
  {
    FirstLineText();
  }

  lemma FirstLineText()
    ensures DOCS_FIRST_LINE == "# docs/ index (complete, generated)"
  {}

  lemma DocsMiddleText()
    ensures RenderAll(DocsMiddle()) == ["", "## Documents directly under docs/", ""]
  {}

  /** Some lines, or a remark where there are none. */
  function LinesOr(lines: seq<string>, remark: string): seq<string> {
    if lines == [] then [remark] else lines
  }

  lemma RenderOtherwise(rows: seq<Line>, remark: string)
    ensures RenderAll(Otherwise(rows, remark)) == LinesOr(RenderAll(rows), remark)
  {
    RenderProse(remark);
  }

  lemma DocsLinesText(w: Wording, subRows: seq<Line>, rows: seq<Line>)
    ensures RenderAll(DocsLinesOf(w, subRows, rows))
         == ["# docs/ index (complete, generated)", "", w.docsIntro, "", "## Sub-folders", ""]
            + LinesOr(RenderAll(subRows), "- (none)")
            + ["", "## Documents directly under docs/", ""]
            + LinesOr(RenderAll(rows), "") + [""]
  {
    var top, middle := DocsTop(w), DocsMiddle();
    var folders, direct := Otherwise(subRows, NO_FOLDERS), Otherwise(rows, "");
    RenderSplit(top + folders + middle + direct, [Prose("")]);
    RenderSplit(top + folders + middle, direct);
    RenderSplit(top + folders, middle);
    RenderSplit(top, folders);
    DocsTopText(w);
    DocsMiddleText();
    RenderOtherwise(subRows, NO_FOLDERS);
    RenderOtherwise(rows, "");
    RenderProse("");
  }

  /** The docs index, line by line. */
  lemma DocsLayout(w: Wording, files: Files, known: seq<string>)
    requires CleanPaths(known)
    ensures Split(DocsIndex(w, files, known), '\n')
         == ["# docs/ index (complete, generated)", "", w.docsIntro, "", "## Sub-folders", ""]
            + LinesOr(FlatMap(SubFolders(known), FolderText(files, known)), "- (none)")
            + ["", "## Documents directly under docs/", ""]
            + LinesOr(RowTexts(files, DirectDocs(known), Name), "") + [""]
  {
    DocsIndexIsClean(w, files, known);
    DocsLinesText(w, SubRows(files, known, SubFolders(known)), LinkRows(files, DirectDocs(known), Name));
    FoldersText(files, known, SubFolders(known));
    RenderRows(files, DirectDocs(known), Name);
  }

  /** The documents directly under docs/ come in the order of their paths, as often as
      they are tracked, the two indexes left out. */
  lemma DirectDocsInOrder(known: seq<string>, path: string)
    ensures forall i, j :: 0 <= i < j < |DirectDocs(known)| ==> StrLe(DirectDocs(known)[i], DirectDocs(known)[j])
    ensures multiset(DirectDocs(known))[path]
         == if StartsWith(path, "docs/") && '/' !in path[5..] && path[5..] != "README.md" && path[5..] != "INDEX.md"
            then multiset(known)[path] else 0
  {
    StrLeIsTotalOrder();
    SortOrders(known, StrLe);
    SortPermutes(known, StrLe);
    FilterKeepsOrder(Sort(known, StrLe), DirectlyUnderDocs, StrLe);
    FilterCount(Sort(known, StrLe), DirectlyUnderDocs, path);
    DirectIff(path);
  }

  lemma StrLeIsTotalOrder()
    ensures TotalOrder(StrLe)
  {
    forall a, b
      ensures StrLe(a, b) || StrLe(b, a)
    {
      StrLeTotal(a, b);
    }
    forall a, b, c | StrLe(a, b) && StrLe(b, c)
      ensures StrLe(a, c)
    {
      StrLeTransitive(a, b, c);
    }
  }

  lemma DirectIff(path: string)
    ensures DirectlyUnderDocs(path)
       <==> StartsWith(path, "docs/") && '/' !in path[5..] && path[5..] != "README.md" && path[5..] != "INDEX.md"
  {
    if StartsWith(path, "docs/") {
      var rest := path[5..];
      assert path == "docs" + ['/'] + rest;
      SplitFirst("docs", '/', rest);
      JoinSplit(rest, '/');
      if '/' !in rest {
        SplitWhole(rest, '/');
      } else {
        TwoPieces(rest);
      }
    } else {
      BelowDocs(path);
    }
  }

  lemma TwoPieces(s: string)
    requires '/' in s
    ensures |Split(s, '/')| > 1
  {
    JoinSplit(s, '/');
    if |Split(s, '/')| == 1 {
      PieceChars(s, '/', Split(s, '/')[0]);
    }
  }

  /** The sub-folders come in the order of their names, without repetition, and are
      those that a tracked path lies in. */
  lemma SubFoldersInOrder(known: seq<string>, s: string)
    ensures forall i, j :: 0 <= i < j < |SubFolders(known)| ==>
              SubFolders(known)[i] != SubFolders(known)[j] && StrLe(SubFolders(known)[i], SubFolders(known)[j])
    ensures s in SubFolders(known) <==> '/' !in s && exists p :: p in known && StartsWith(p, "docs/" + s + "/")
  {
    var nested := Filter(known, InSubFolder);
    var keys := Keys(nested, SubFolder);
    StrLeIsTotalOrder();
    SortOrders(keys, StrLe);
    SortPermutes(keys, StrLe);
    MultisetMembers(SubFolders(known), keys);
    SubFoldersCover(known);
    FilterMembers(known, InSubFolder);
    FolderPrefix(s);
    if s in SubFolders(known) {
      var p :| p in nested && SubFolder(p) == s;
      PrefixIsFolder(p, s);
    }
    if '/' !in s && exists p :: p in known && StartsWith(p, "docs/" + s + "/") {
      var p :| p in known && StartsWith(p, "docs/" + s + "/");
      PrefixIsFolder(p, s);
    }
  }
}
