/** The links a reader of the generated text finds: scanning for Markdown links
    gives back the tracked documents, and what their titles add. */
module DocLinks {
  import opened Outcomes
  import opened Text
  import opened Sorting
  import opened DocIndex
  import opened DocComplete
  import opened DocClean
  import opened DocRun
  import opened DocSettle

  // ---------- scanning ----------

  /** Position of the first `c`, or the end. */
  function Find(s: string, c: char): (i: nat)
    ensures i <= |s|
    ensures c !in s[..i]
    ensures i < |s| ==> s[i] == c
  {
    if s == "" || s[0] == c then 0 else 1 + Find(s[1..], c)
  }

  /** The link that opens with the bracket at the front: its target and what follows.
      Its text ends at the first closing bracket, its target at the first closing
      parenthesis. */
  function LinkAt(s: string): (link: Option<(string, string)>)
    ensures link.Some? ==> |link.value.1| < |s|
  {
    var close := Find(s, ']');
    if close + 1 < |s| && s[close + 1] == '(' then
      var tail := s[close + 2..];
      var end := Find(tail, ')');
      if end < |tail| then Some((tail[..end], tail[end + 1..])) else None
    else None
  }

  /** The targets of the links of a line. */
  function LinksOf(line: string): seq<string>
    decreases |line|
  {
    if line == "" then []
    else if line[0] == '[' && LinkAt(line).Some? then [LinkAt(line).value.0] + LinksOf(LinkAt(line).value.1)
    else LinksOf(line[1..])
  }

  lemma {:induction false} FindAfter(a: string, c: char, b: string)
    requires c !in a
    ensures Find(a + [c] + b, c) == |a|
  {
    if a != "" {
      FindAfter(a[1..], c, b);
      assert (a + [c] + b)[1..] == a[1..] + [c] + b;
    }
  }

  /** Text before the first opening bracket holds no link. */
  lemma {:induction false} NoOpening(a: string, b: string)
    requires '[' !in a
    ensures LinksOf(a + b) == LinksOf(b)
  {
    if a == "" {
      assert a + b == b;
    } else {
      NoOpening(a[1..], b);
      HeadOfConcat(a, b);
      OneStep(a + b);
    }
  }

  lemma OneStep(s: string)
    requires s != "" && s[0] != '['
    ensures LinksOf(s) == LinksOf(s[1..])
  {}

  lemma {:induction false} NoClosing(s: string)
    requires ']' !in s
    ensures LinksOf(s) == []
  {
    if s != "" {
      assert Find(s, ']') == |s|;
      NoClosing(s[1..]);
    }
  }

  function MarkdownLink(text: string, target: string): string {
    "[" + text + "](" + target + ")"
  }

  lemma LinkAtFront(text: string, target: string, rest: string)
    requires ']' !in text && ')' !in target
    ensures LinkAt(MarkdownLink(text, target) + rest) == Some((target, rest))
  {
    var line := MarkdownLink(text, target) + rest;
    var tail := target + [')'] + rest;
    assert line == ("[" + text) + [']'] + ("(" + tail);
    FindAfter("[" + text, ']', "(" + tail);
    assert line[|text| + 2] == '(' && line[|text| + 3..] == tail;
    FindAfter(target, ')', rest);
    assert tail[..|target|] == target && tail[|target| + 1..] == rest;
  }

  lemma LinkFirst(text: string, target: string, rest: string)
    requires ']' !in text && ')' !in target
    ensures LinksOf(MarkdownLink(text, target) + rest) == [target] + LinksOf(rest)
  {
    LinkAtFront(text, target, rest);
    assert (MarkdownLink(text, target) + rest)[0] == '[';
  }

  // ---------- rows ----------

  predicate PlainPath(path: string) {
    ']' !in path && ')' !in path
  }

  predicate PlainPaths(paths: seq<string>) {
    forall p :: p in paths ==> PlainPath(p)
  }

  predicate PlainLine(l: Line) {
    l.Link? ==> ']' !in l.text && ')' !in l.target
  }

  predicate PlainLines(lines: seq<Line>) {
    forall l :: l in lines ==> PlainLine(l)
  }

  type Scan = string -> seq<string>

  /** What is asked of a reader of links: it finds the link of a row and then those of
      the rest, none without a closing bracket, and none in the dash before a title. */
  ghost predicate ReadsRows(scan: Scan) {
    && (forall l: Line :: l.Link? && PlainLine(l) ==> scan(l.Render()) == [l.target] + scan(l.suffix))
    && (forall s :: ']' !in s ==> scan(s) == [])
    && (forall title :: scan(Titled(title)) == scan(title))
  }

  lemma LinksOfReadsRows()
    ensures ReadsRows(LinksOf)
  {
    forall l: Line | l.Link? && PlainLine(l)
      ensures LinksOf(l.Render()) == [l.target] + LinksOf(l.suffix)
    {
      RowLinks(l.text, l.target, l.suffix);
    }
    forall s | ']' !in s
      ensures LinksOf(s) == []
    {
      NoClosing(s);
    }
    forall title
      ensures LinksOf(Titled(title)) == LinksOf(title)
    {
      NoOpening(" \U{2014} ", title);
    }
  }

  lemma RenderedLink(text: string, target: string, suffix: string)
    ensures Link(text, target, suffix).Render() == "- " + (MarkdownLink(text, target) + suffix)
  {
    assert "- [" == "- " + "[";
  }

  lemma RowLinks(text: string, target: string, suffix: string)
    requires ']' !in text && ')' !in target
    ensures LinksOf(Link(text, target, suffix).Render()) == [target] + LinksOf(suffix)
  {
    RenderedLink(text, target, suffix);
    NoOpening("- ", MarkdownLink(text, target) + suffix);
    LinkFirst(text, target, suffix);
  }

  /** A row links its path exactly when no parenthesis closes inside the path. */
  lemma RowLinksIff(path: string, suffix: string)
    requires ']' !in path
    ensures LinksOf(Link(path, path, suffix).Render()) == [path] + LinksOf(suffix) <==> ')' !in path
  {
    if ')' in path {
      CutShort(path, suffix);
    } else {
      RowLinks(path, path, suffix);
    }
  }

  lemma CutShort(path: string, suffix: string)
    requires ']' !in path && ')' in path
    ensures LinksOf(Link(path, path, suffix).Render()) != [path] + LinksOf(suffix)
  {
    var end := Find(path, ')');
    var target, after := path[..end], path[end + 1..];
    assert path == target + ")" + after;
    LinkUpTo(path, target, after, suffix);
    assert |target| < |path|;
    DifferentHead(target, LinksOf(after + ")" + suffix), path, LinksOf(suffix));
  }

  lemma LinkUpTo(path: string, target: string, after: string, suffix: string)
    requires path == target + ")" + after && ']' !in path && ')' !in target
    ensures LinksOf(Link(path, path, suffix).Render()) == [target] + LinksOf(after + ")" + suffix)
  {
    RenderedLink(path, path, suffix);
    NoOpening("- ", MarkdownLink(path, path) + suffix);
    SplitLink(path, target, after, suffix);
    LinkFirst(path, target, after + ")" + suffix);
  }

  lemma DifferentHead(a: string, x: seq<string>, b: string, y: seq<string>)
    requires a != b
    ensures [a] + x != [b] + y
  {
    assert ([a] + x)[0] != ([b] + y)[0];
  }

  lemma SplitLink(text: string, target: string, after: string, suffix: string)
    ensures MarkdownLink(text, target + ")" + after) + suffix == MarkdownLink(text, target) + (after + ")" + suffix)
  {}

  /** The links a scan finds in a text, line by line. */
  function LinksIn(scan: Scan, text: string): seq<string> {
    FlatMap(Split(text, '\n'), scan)
  }

  /** What a scan finds in a line besides the target of its row. */
  function Extra(scan: Scan): Line -> seq<string> {
    (l: Line) => scan(if l.Prose? then l.text else l.suffix)
  }

  /** Rendered lines link the targets of their rows and nothing more than what their
      prose and titles hold. */
  lemma {:induction false} LinesLink(scan: Scan, lines: seq<Line>)
    requires ReadsRows(scan) && PlainLines(lines)
    ensures multiset(FlatMap(RenderAll(lines), scan))
         == multiset(Targets(lines)) + multiset(FlatMap(lines, Extra(scan)))
  {
    if lines != [] {
      var front, last := lines[..|lines| - 1], lines[|lines| - 1];
      LinesLink(scan, front);
      assert RenderAll(lines)[..|lines| - 1] == RenderAll(front);
      TargetsOfLast(lines);
      LineLinks(scan, last);
      AddBoth(FlatMap(RenderAll(front), scan), Targets(front), FlatMap(front, Extra(scan)),
              Targets([last]), Extra(scan)(last));
    }
  }

  lemma TargetsOfLast(lines: seq<Line>)
    requires lines != []
    ensures Targets(lines) == Targets(lines[..|lines| - 1]) + Targets([lines[|lines| - 1]])
  {
    assert lines == lines[..|lines| - 1] + [lines[|lines| - 1]];
    TargetsConcat(lines[..|lines| - 1], [lines[|lines| - 1]]);
  }

  lemma AddBoth<T>(all: seq<T>, a: seq<T>, b: seq<T>, x: seq<T>, y: seq<T>)
    requires multiset(all) == multiset(a) + multiset(b)
    ensures multiset(all + (x + y)) == multiset(a + x) + multiset(b + y)
  {}

  lemma LineLinks(scan: Scan, l: Line)
    requires ReadsRows(scan) && PlainLine(l)
    ensures scan(l.Render()) == Targets([l]) + Extra(scan)(l)
  {}

  /** The links that the title of a document holds. */
  function TitleLinks(scan: Scan, files: Files): string -> seq<string> {
    path => scan(Title(files, path))
  }

  lemma {:induction false} RowExtras(scan: Scan, files: Files, paths: seq<string>, link: string -> string)
    requires ReadsRows(scan)
    ensures FlatMap(LinkRows(files, paths, link), Extra(scan)) == FlatMap(paths, TitleLinks(scan, files))
  {
    if paths != [] {
      var front, last := paths[..|paths| - 1], paths[|paths| - 1];
      RowExtras(scan, files, front, link);
      assert LinkRows(files, paths, link)[..|paths| - 1] == LinkRows(files, front, link);
      RowExtra(scan, files, last, link(last));
    }
  }

  lemma RowExtra(scan: Scan, files: Files, path: string, target: string)
    requires ReadsRows(scan)
    ensures Extra(scan)(LinkRow(files, path, target)) == TitleLinks(scan, files)(path)
  {}

  lemma NothingFound(scan: Scan, s: string)
    requires ReadsRows(scan) && ']' !in s
    ensures scan(s) == []
  {}

  // ---------- the root index ----------

  lemma GroupIsPlain(path: string)
    requires PlainPath(path)
    ensures ']' !in Group(path)
  {
    var parts := Parts(path);
    PieceChars(path, '/', parts[0]);
    if |parts| > 1 {
      PieceChars(path, '/', parts[1]);
    }
  }

  lemma SectionKeysArePlain(known: seq<string>)
    requires PlainPaths(known)
    ensures forall key :: key in SectionKeys(known) ==> ']' !in key
  {
    var keys := Keys(known, Group);
    SortPermutes(keys, SectionOrder);
    MultisetMembers(SectionKeys(known), keys);
    forall key | key in keys
      ensures ']' !in key
    {
      var path :| path in known && Group(path) == key;
      GroupIsPlain(path);
    }
  }

  lemma RowsArePlain(files: Files, paths: seq<string>, link: string -> string)
    requires forall p :: p in paths ==> PlainPath(link(p))
    ensures PlainLines(LinkRows(files, paths, link))
  {
    assert forall i :: 0 <= i < |paths| ==> paths[i] in paths;
  }

  lemma {:induction false} SectionsArePlain(files: Files, known: seq<string>, keys: seq<string>)
    requires PlainPaths(known)
    ensures PlainLines(Sections(files, known, keys))
  {
    if keys != [] {
      var last := keys[|keys| - 1];
      SectionsArePlain(files, known, keys[..|keys| - 1]);
      ListedAreTracked(known, last);
      RowsArePlain(files, Listed(known, last), Whole);
      assert Section(files, known, last) == [Prose(SectionHeading(last)), Prose("")]
                                            + LinkRows(files, Listed(known, last), Whole) + [Prose("")];
    }
  }

  lemma SectionExtras(scan: Scan, files: Files, known: seq<string>, key: string)
    requires ReadsRows(scan) && ']' !in key
    ensures FlatMap(Section(files, known, key), Extra(scan)) == FlatMap(Listed(known, key), TitleLinks(scan, files))
  {
    var head, rows, foot := [Prose(SectionHeading(key)), Prose("")],
                            LinkRows(files, Listed(known, key), Whole), [Prose("")];
    assert Section(files, known, key) == head + rows + foot;
    NothingFound(scan, SectionHeading(key));
    FlatMapEmpty(head, Extra(scan));
    FlatMapEmpty(foot, Extra(scan));
    FlatMapConcat(head + rows, foot, Extra(scan));
    FlatMapConcat(head, rows, Extra(scan));
    RowExtras(scan, files, Listed(known, key), Whole);
  }

  lemma {:induction false} SectionsExtras(scan: Scan, files: Files, known: seq<string>, keys: seq<string>)
    requires ReadsRows(scan) && forall key :: key in keys ==> ']' !in key
    ensures FlatMap(Sections(files, known, keys), Extra(scan))
         == FlatMap(Targets(Sections(files, known, keys)), TitleLinks(scan, files))
  {
    if keys != [] {
      var front, last := keys[..|keys| - 1], keys[|keys| - 1];
      SectionsExtras(scan, files, known, front);
      SectionExtras(scan, files, known, last);
      SectionTargets(files, known, last);
      TargetsConcat(Sections(files, known, front), Section(files, known, last));
      FlatMapConcat(Sections(files, known, front), Section(files, known, last), Extra(scan));
      FlatMapConcat(Targets(Sections(files, known, front)), Listed(known, last), TitleLinks(scan, files));
    }
  }

  /** The links of the fixed prose of the root index. */
  function FixedLinks(scan: Scan, w: Wording): seq<string> {
    scan(w.title) + scan(w.intro) + scan(w.folders)
  }

  lemma Spaced(scan: Scan, text: string)
    requires ReadsRows(scan)
    ensures FlatMap([Prose(text), Prose("")], Extra(scan)) == scan(text)
  {
    FlatMapConcat([Prose(text)], [Prose("")], Extra(scan));
    FlatMapOne(Prose(text), Extra(scan));
    FlatMapOne(Prose(""), Extra(scan));
  }

  lemma PreambleExtras(scan: Scan, w: Wording)
    requires ReadsRows(scan)
    ensures FlatMap(RootPreamble(w), Extra(scan)) == FixedLinks(scan, w)
  {
    var title, intro := [Prose(w.title), Prose("")], [Prose(w.intro), Prose("")];
    var heading, folders := [Prose("## Folder indexes"), Prose("")], [Prose(w.folders), Prose("")];
    PreamblePairs(w);
    FlatMapFive(title, intro, heading, folders, [], Extra(scan));
    Spaced(scan, w.title);
    Spaced(scan, w.intro);
    Spaced(scan, "## Folder indexes");
    Spaced(scan, w.folders);
    NothingFound(scan, "## Folder indexes");
    TwoGaps(scan(w.title), scan(w.intro), scan(w.folders));
  }

  lemma PreamblePairs(w: Wording)
    ensures RootPreamble(w) == [Prose(w.title), Prose("")] + [Prose(w.intro), Prose("")]
                               + [Prose("## Folder indexes"), Prose("")] + [Prose(w.folders), Prose("")] + []
  {}

  lemma RootTargets(w: Wording, files: Files, known: seq<string>)
    ensures Targets(RootLines(w, files, known)) == Targets(Sections(files, known, SectionKeys(known)))
  {
    TargetsConcat(RootPreamble(w), Sections(files, known, SectionKeys(known)));
    ProseHasNoTargets(RootPreamble(w));
  }

  lemma RootExtras(scan: Scan, w: Wording, files: Files, known: seq<string>)
    requires ReadsRows(scan) && PlainPaths(known)
    ensures FlatMap(RootLines(w, files, known), Extra(scan))
         == FixedLinks(scan, w) + FlatMap(Targets(RootLines(w, files, known)), TitleLinks(scan, files))
  {
    SectionKeysArePlain(known);
    SectionsExtras(scan, files, known, SectionKeys(known));
    PreambleExtras(scan, w);
    FlatMapConcat(RootPreamble(w), Sections(files, known, SectionKeys(known)), Extra(scan));
    RootTargets(w, files, known);
  }

  lemma RootLinesArePlain(w: Wording, files: Files, known: seq<string>)
    requires PlainPaths(known)
    ensures PlainLines(RootLines(w, files, known))
  {
    SectionsArePlain(files, known, SectionKeys(known));
  }

  /** The links of the root index are those of its fixed prose, every tracked document
      but itself as often as it is tracked, and whatever their titles link. */
  lemma RootIndexLinks(scan: Scan, w: Wording, files: Files, known: seq<string>)
    requires ReadsRows(scan) && CleanPaths(known) && PlainPaths(known)
    ensures multiset(LinksIn(scan, RootIndex(w, files, known)))
         == multiset(FixedLinks(scan, w)) + multiset(Filter(known, IsListed))
            + multiset(FlatMap(Filter(known, IsListed), TitleLinks(scan, files)))
  {
    var lines := RootLines(w, files, known);
    RootIndexIsClean(w, files, known);
    RootExtras(scan, w, files, known);
    RootLinesArePlain(w, files, known);
    LinesLink(scan, lines);
    RootIndexComplete(w, files, known);
    FlatMapOfPermutation(Targets(lines), Filter(known, IsListed), TitleLinks(scan, files));
  }

  /** A reader of the root index finds exactly the tracked documents, beside the fixed
      links, exactly when no title of theirs holds a link. */
  lemma RootLinksExactIff(scan: Scan, w: Wording, files: Files, known: seq<string>)
    requires ReadsRows(scan) && CleanPaths(known) && PlainPaths(known)
    ensures multiset(LinksIn(scan, RootIndex(w, files, known)))
         == multiset(FixedLinks(scan, w)) + multiset(Filter(known, IsListed))
       <==> forall p :: p in known && p != ROOT_INDEX ==> scan(Title(files, p)) == []
  {
    var extra := FlatMap(Filter(known, IsListed), TitleLinks(scan, files));
    RootIndexLinks(scan, w, files, known);
    FilterMembers(known, IsListed);
    FlatMapEmpty(Filter(known, IsListed), TitleLinks(scan, files));
    NothingAdded(multiset(FixedLinks(scan, w)) + multiset(Filter(known, IsListed)), extra);
  }

  lemma NothingAdded(base: multiset<string>, extra: seq<string>)
    ensures base + multiset(extra) == base <==> extra == []
  {
    if extra != [] {
      assert (base + multiset(extra))[extra[0]] > base[extra[0]];
    }
  }

  // ---------- the docs index ----------

  /** The documents whose row in the docs index carries a title. */
  predicate HasTitledRow(path: string) {
    DirectlyUnderDocs(path) || (InSubFolder(path) && path != SubReadme(SubFolder(path)))
  }

  /** The documents of the given sub-folders, their READMEs left out. */
  function SubDocs(known: seq<string>, subs: seq<string>): seq<string> {
    if subs == [] then [] else SubDocs(known, subs[..|subs| - 1]) + SubFiles(known, subs[|subs| - 1])
  }

  lemma {:induction false} SubDocsCount(known: seq<string>, subs: seq<string>, path: string)
    requires Distinct(subs) && forall s :: s in subs ==> '/' !in s
    ensures multiset(SubDocs(known, subs))[path]
         == if InSubFolder(path) && SubFolder(path) in subs && path != SubReadme(SubFolder(path))
            then multiset(known)[path] else 0
  {
    if subs != [] {
      var front, last := subs[..|subs| - 1], subs[|subs| - 1];
      SubDocsCount(known, front, path);
      PrefixIsFolder(path, last);
      FilterCount(known, p => StartsWith(p, SubPrefix(last)) && p != SubReadme(last), path);
    }
  }

  lemma TitledDocs(known: seq<string>)
    ensures multiset(SubDocs(known, SubFolders(known)) + DirectDocs(known)) == multiset(Filter(known, HasTitledRow))
  {
    var docs, wanted := multiset(SubDocs(known, SubFolders(known)) + DirectDocs(known)),
                        multiset(Filter(known, HasTitledRow));
    SubFoldersCover(known);
    SortPermutes(known, StrLe);
    forall path: string
      ensures docs[path] == wanted[path]
    {
      SubDocsCount(known, SubFolders(known), path);
      FilterCount(Sort(known, StrLe), DirectlyUnderDocs, path);
      FilterCount(known, HasTitledRow, path);
      MultisetCount(known, path);
    }
    SameCounts(docs, wanted);
  }

  lemma RelLinkChars(path: string)
    ensures forall c :: c in RelLink(path) ==> c in path
  {}

  lemma FolderExtras(scan: Scan, files: Files, known: seq<string>, s: string)
    requires ReadsRows(scan)
    ensures FlatMap(FolderRows(files, known, s), Extra(scan)) == FlatMap(SubFiles(known, s), TitleLinks(scan, files))
  {
    var readme := if SubReadme(s) in known then [Link(s + "/", s + "/README.md", "")] else [];
    var rows := LinkRows(files, SubFiles(known, s), RelLink);
    FlatMapEmpty(readme, Extra(scan));
    FlatMapConcat(readme, rows, Extra(scan));
    RowExtras(scan, files, SubFiles(known, s), RelLink);
  }

  lemma {:induction false} SubRowExtras(scan: Scan, files: Files, known: seq<string>, subs: seq<string>)
    requires ReadsRows(scan)
    ensures FlatMap(SubRows(files, known, subs), Extra(scan)) == FlatMap(SubDocs(known, subs), TitleLinks(scan, files))
  {
    if subs != [] {
      var front, last := subs[..|subs| - 1], subs[|subs| - 1];
      SubRowExtras(scan, files, known, front);
      FolderExtras(scan, files, known, last);
      FlatMapConcat(SubRows(files, known, front), FolderRows(files, known, last), Extra(scan));
      FlatMapConcat(SubDocs(known, front), SubFiles(known, last), TitleLinks(scan, files));
    }
  }

  lemma SubFoldersArePlain(known: seq<string>)
    requires PlainPaths(known)
    ensures PlainPaths(SubFolders(known))
  {
    var nested := Filter(known, InSubFolder);
    var keys := Keys(nested, SubFolder);
    FilterMembers(known, InSubFolder);
    SortPermutes(keys, StrLe);
    MultisetMembers(SubFolders(known), keys);
    forall s | s in keys
      ensures PlainPath(s)
    {
      var path :| path in nested && SubFolder(path) == s;
      PieceChars(path, '/', s);
    }
  }

  lemma {:induction false} SubRowsArePlain(files: Files, known: seq<string>, subs: seq<string>)
    requires PlainPaths(known) && PlainPaths(subs)
    ensures PlainLines(SubRows(files, known, subs))
  {
    if subs != [] {
      var s := subs[|subs| - 1];
      SubRowsArePlain(files, known, subs[..|subs| - 1]);
      FilterMembers(known, path => StartsWith(path, SubPrefix(s)) && path != SubReadme(s));
      forall p | p in SubFiles(known, s)
        ensures PlainPath(RelLink(p))
      {
        RelLinkChars(p);
      }
      RowsArePlain(files, SubFiles(known, s), RelLink);
      assert PlainPath(s);
      assert PlainLine(Link(s + "/", s + "/README.md", ""));
    }
  }

  lemma DirectRowsArePlain(files: Files, known: seq<string>)
    requires PlainPaths(known)
    ensures PlainLines(LinkRows(files, DirectDocs(known), Name))
  {
    SortPermutes(known, StrLe);
    MultisetMembers(Sort(known, StrLe), known);
    FilterMembers(Sort(known, StrLe), DirectlyUnderDocs);
    forall p | p in DirectDocs(known)
      ensures PlainPath(Name(p))
    {
      PieceChars(p, '/', Name(p));
    }
    RowsArePlain(files, DirectDocs(known), Name);
  }

  lemma DocsLinesArePlain(w: Wording, files: Files, known: seq<string>)
    requires PlainPaths(known)
    ensures PlainLines(DocsLines(w, files, known))
  {
    SubFoldersArePlain(known);
    SubRowsArePlain(files, known, SubFolders(known));
    DirectRowsArePlain(files, known);
    PlainParts(w, SubRows(files, known, SubFolders(known)), LinkRows(files, DirectDocs(known), Name));
  }

  lemma PlainParts(w: Wording, subRows: seq<Line>, rows: seq<Line>)
    requires PlainLines(subRows) && PlainLines(rows)
    ensures PlainLines(DocsLinesOf(w, subRows, rows))
  {
    assert PlainLines(DocsTop(w)) && PlainLines(DocsMiddle());
    assert PlainLines(Otherwise(subRows, NO_FOLDERS)) && PlainLines(Otherwise(rows, ""));
  }

  lemma RemarkExtras(scan: Scan, rows: seq<Line>, remark: string)
    requires ReadsRows(scan) && ']' !in remark
    ensures FlatMap(Otherwise(rows, remark), Extra(scan)) == FlatMap(rows, Extra(scan))
  {
    NothingFound(scan, remark);
    FlatMapEmpty([Prose(remark)], Extra(scan));
  }

  lemma FixedDocsLines(scan: Scan, w: Wording)
    requires ReadsRows(scan)
    ensures FlatMap(DocsTop(w), Extra(scan)) == scan(w.docsIntro)
    ensures FlatMap(DocsMiddle(), Extra(scan)) == FlatMap([Prose("")], Extra(scan)) == []
  {
    var title, intro, sub := [Prose(DOCS_FIRST_LINE), Prose("")], [Prose(w.docsIntro), Prose("")],
                             [Prose(SUB_HEADING), Prose("")];
    assert DocsTop(w) == title + intro + sub;
    FlatMapConcat(title + intro, sub, Extra(scan));
    FlatMapConcat(title, intro, Extra(scan));
    Spaced(scan, DOCS_FIRST_LINE);
    Spaced(scan, w.docsIntro);
    Spaced(scan, SUB_HEADING);
    NoLinkInHeadings(scan);
    FlatMapEmpty(DocsMiddle(), Extra(scan));
    FlatMapEmpty([Prose("")], Extra(scan));
  }

  lemma NoLinkInHeadings(scan: Scan)
    requires ReadsRows(scan)
    ensures scan(DOCS_FIRST_LINE) == scan(SUB_HEADING) == scan(DIRECT_HEADING) == []
  {
    NoClosingInFirstLine();
    NothingFound(scan, DOCS_FIRST_LINE);
    NothingFound(scan, SUB_HEADING);
    NothingFound(scan, DIRECT_HEADING);
  }

  lemma NoClosingInFirstLine()
    ensures ']' !in DOCS_FIRST_LINE
  {
    assert ']' !in DOCS_HEADING;
  }

  lemma DocsExtras(scan: Scan, w: Wording, subRows: seq<Line>, rows: seq<Line>)
    requires ReadsRows(scan)
    ensures FlatMap(DocsLinesOf(w, subRows, rows), Extra(scan))
         == scan(w.docsIntro) + (FlatMap(subRows, Extra(scan)) + FlatMap(rows, Extra(scan)))
  {
    var top, middle := DocsTop(w), DocsMiddle();
    var folders, direct := Otherwise(subRows, NO_FOLDERS), Otherwise(rows, "");
    FixedDocsLines(scan, w);
    RemarkExtras(scan, subRows, NO_FOLDERS);
    RemarkExtras(scan, rows, "");
    FlatMapFive(top, folders, middle, direct, [Prose("")], Extra(scan));
    TwoGaps(scan(w.docsIntro), FlatMap(subRows, Extra(scan)), FlatMap(rows, Extra(scan)));
  }

  /** The links of the docs index are those of its fixed prose, the targets of its
      rows, and whatever the titles of the documents below docs/ link. */
  lemma DocsIndexLinks(scan: Scan, w: Wording, files: Files, known: seq<string>)
    requires ReadsRows(scan) && CleanPaths(known) && PlainPaths(known)
    ensures multiset(LinksIn(scan, DocsIndex(w, files, known)))
         == multiset(scan(w.docsIntro)) + multiset(Targets(DocsLines(w, files, known)))
            + multiset(FlatMap(Filter(known, HasTitledRow), TitleLinks(scan, files)))
  {
    var subRows, rows := SubRows(files, known, SubFolders(known)), LinkRows(files, DirectDocs(known), Name);
    var docs := SubDocs(known, SubFolders(known)) + DirectDocs(known);
    DocsIndexIsClean(w, files, known);
    DocsLinesArePlain(w, files, known);
    SubRowExtras(scan, files, known, SubFolders(known));
    RowExtras(scan, files, DirectDocs(known), Name);
    DocsExtras(scan, w, subRows, rows);
    LinesLink(scan, DocsLines(w, files, known));
    FlatMapConcat(SubDocs(known, SubFolders(known)), DirectDocs(known), TitleLinks(scan, files));
    TitledDocs(known);
    FlatMapOfPermutation(docs, Filter(known, HasTitledRow), TitleLinks(scan, files));
  }

  /** A reader of the docs index finds exactly the targets of its rows, beside the fixed
      links, exactly when no title shown there holds a link. */
  lemma DocsLinksExactIff(scan: Scan, w: Wording, files: Files, known: seq<string>)
    requires ReadsRows(scan) && CleanPaths(known) && PlainPaths(known)
    ensures multiset(LinksIn(scan, DocsIndex(w, files, known)))
         == multiset(scan(w.docsIntro)) + multiset(Targets(DocsLines(w, files, known)))
       <==> forall p :: p in known && HasTitledRow(p) ==> scan(Title(files, p)) == []
  {
    var extra := FlatMap(Filter(known, HasTitledRow), TitleLinks(scan, files));
    DocsIndexLinks(scan, w, files, known);
    FilterMembers(known, HasTitledRow);
    FlatMapEmpty(Filter(known, HasTitledRow), TitleLinks(scan, files));
    NothingAdded(multiset(scan(w.docsIntro)) + multiset(Targets(DocsLines(w, files, known))), extra);
  }

  // ---------- reachability ----------

  lemma DocumentIsLinked(scan: Scan, w: Wording, files: Files, known: seq<string>, path: string)
    requires ReadsRows(scan) && CleanPaths(known) && PlainPaths(known)
    requires path in known && path != ROOT_INDEX
    ensures path in LinksIn(scan, RootIndex(w, files, known))
  {
    RootIndexLinks(scan, w, files, known);
    FilterMembers(known, IsListed);
    MemberOfSum(LinksIn(scan, RootIndex(w, files, known)), FixedLinks(scan, w), Filter(known, IsListed),
                FlatMap(Filter(known, IsListed), TitleLinks(scan, files)), path);
  }

  lemma MemberOfSum<T>(all: seq<T>, a: seq<T>, b: seq<T>, c: seq<T>, x: T)
    requires multiset(all) == multiset(a) + multiset(b) + multiset(c) && (x in b || x in c)
    ensures x in all
  {
    assert x in multiset(all);
  }

  /** After a run every tracked document is one link away from the root index, whatever
      the titles are, as long as no bracket closes inside a tracked path. */
  lemma EveryDocumentIsLinked(scan: Scan, w: Wording, files: Files, lsFiles: string, path: string)
    requires ReadsRows(scan) && PlainPaths(Tracked(lsFiles)) && path in Tracked(lsFiles) && path != ROOT_INDEX
    ensures var after := Run(w, files, Tracked(lsFiles));
            ROOT_INDEX in after && path in LinksIn(scan, Universal(after[ROOT_INDEX]))
  {
    TrackedPathsAreClean(lsFiles);
    RunWritesOnlyIndexes(w, files, Tracked(lsFiles));
    DocumentIsLinked(scan, w, files, Tracked(lsFiles), path);
  }

  /** What the title of a listed document links, the root index links. */
  lemma TitleAddsLink(scan: Scan, w: Wording, files: Files, known: seq<string>, path: string, target: string)
    requires ReadsRows(scan) && CleanPaths(known) && PlainPaths(known)
    requires path in known && path != ROOT_INDEX && target in scan(Title(files, path))
    ensures target in LinksIn(scan, RootIndex(w, files, known))
  {
    RootIndexLinks(scan, w, files, known);
    FilterMembers(known, IsListed);
    MemberOfFlatMap(Filter(known, IsListed), TitleLinks(scan, files), path, target);
    MemberOfSum(LinksIn(scan, RootIndex(w, files, known)), FixedLinks(scan, w), Filter(known, IsListed),
                FlatMap(Filter(known, IsListed), TitleLinks(scan, files)), target);
  }

  /** So the root index can link what is not tracked. */
  lemma TitleCanAddLink(w: Wording, files: Files)
    requires files == map["a.md" := "# " + MarkdownLink("x", "b.md")]
    ensures "b.md" in LinksIn(LinksOf, RootIndex(w, files, ["a.md"]))
  {
    LinkInTitle();
    ShortTitle();
    HeadingTitle(files, MarkdownLink("x", "b.md"));
    AddsLink(w, files, "b.md");
  }

  lemma AddsLink(w: Wording, files: Files, target: string)
    requires LinksOf(Title(files, "a.md")) == [target]
    ensures target in LinksIn(LinksOf, RootIndex(w, files, ["a.md"]))
  {
    ShortPath();
    LinksOfReadsRows();
    TitleAddsLink(LinksOf, w, files, ["a.md"], "a.md", target);
  }

  lemma ShortTitle()
    ensures var title := MarkdownLink("x", "b.md");
            && OneLine(title) && 0 < |title| <= 110
            && !IsPythonSpace(title[0]) && !IsPythonSpace(title[|title| - 1])
  {}

  lemma ShortPath()
    ensures CleanPaths(["a.md"]) && PlainPaths(["a.md"]) && "a.md" != ROOT_INDEX
  {
    assert OneLine("a.md") && PlainPath("a.md");
  }

  lemma HeadingTitle(files: Files, title: string)
    requires files == map["a.md" := "# " + title] && OneLine(title)
    requires 0 < |title| <= 110 && !IsPythonSpace(title[0]) && !IsPythonSpace(title[|title| - 1])
    ensures Title(files, "a.md") == title
  {
    var line := "# " + title;
    assert Universal(line) == line;
    SplitWhole(line, '\n');
    assert line[..1] == "#";
    HeadingOfTitle(title);
  }

  lemma LinkInTitle()
    ensures LinksOf(MarkdownLink("x", "b.md")) == ["b.md"]
  {
    LinkFirst("x", "b.md", "");
    assert MarkdownLink("x", "b.md") + "" == MarkdownLink("x", "b.md");
  }
}
