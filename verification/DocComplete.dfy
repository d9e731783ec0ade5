/** Completeness of the indexes: which documents they list, how often and in what
    order. */
module DocComplete {
  import opened Text
  import opened Sorting
  import opened DocIndex

  lemma {:induction false} TargetsConcat(a: seq<Line>, b: seq<Line>)
    ensures Targets(a + b) == Targets(a) + Targets(b)
  {
    if a == [] {
      assert a + b == b;
    } else {
      TargetsConcat(a[1..], b);
      HeadOfConcat(a, b);
    }
  }

  lemma {:induction false} ProseHasNoTargets(lines: seq<Line>)
    requires forall l :: l in lines ==> l.Prose?
    ensures Targets(lines) == []
  {
    if lines != [] {
      assert lines[0] in lines;
      ProseHasNoTargets(lines[1..]);
    }
  }

  lemma {:induction false} LinkTargets(files: Files, paths: seq<string>, link: string -> string)
    ensures |Targets(LinkRows(files, paths, link))| == |paths|
    ensures forall i :: 0 <= i < |paths| ==> Targets(LinkRows(files, paths, link))[i] == link(paths[i])
  {
    if paths != [] {
      LinkTargets(files, paths[1..], link);
      assert LinkRows(files, paths, link)[1..] == LinkRows(files, paths[1..], link);
    }
  }

  lemma LinkRowsAppend(files: Files, paths: seq<string>, p: string, link: string -> string)
    ensures LinkRows(files, paths + [p], link) == LinkRows(files, paths, link) + [LinkRow(files, p, link(p))]
  {}

  lemma SectionTargets(files: Files, known: seq<string>, key: string)
    ensures Targets(Section(files, known, key)) == Listed(known, key)
  {
    var head := [Prose(SectionHeading(key)), Prose("")];
    var rows := LinkRows(files, Listed(known, key), Whole);
    assert Section(files, known, key) == head + rows + [Prose("")];
    TargetsConcat(head + rows, [Prose("")]);
    TargetsConcat(head, rows);
    ProseHasNoTargets(head);
    ProseHasNoTargets([Prose("")]);
    LinkTargets(files, Listed(known, key), Whole);
    assert Targets(rows) == Listed(known, key);
  }

  /** Sorting a group and dropping the index itself keeps the rest of the group. */
  lemma ListedIsGroup(known: seq<string>, key: string)
    ensures multiset(Listed(known, key)) == multiset(Filter(known, p => Group(p) == key && p != ROOT_INDEX))
  {
    var members := Members(known, key);
    SortPermutes(members, NewerFirst);
    var listed := multiset(Listed(known, key));
    var wanted := multiset(Filter(known, p => Group(p) == key && p != ROOT_INDEX));
    forall x: string
      ensures listed[x] == wanted[x]
    {
      FilterCount(Sort(members, NewerFirst), IsListed, x);
      FilterCount(known, p => Group(p) == key, x);
      FilterCount(known, p => Group(p) == key && p != ROOT_INDEX, x);
    }
    SameCounts(listed, wanted);
  }

  lemma {:induction false} SectionsTargets(files: Files, known: seq<string>, keys: seq<string>)
    requires Distinct(keys)
    ensures multiset(Targets(Sections(files, known, keys)))
         == multiset(Filter(known, p => Group(p) in keys && p != ROOT_INDEX))
  {
    if keys == [] {
      FilterNothing(known, p => Group(p) in keys && p != ROOT_INDEX);
    } else {
      var front, last := keys[..|keys| - 1], keys[|keys| - 1];
      SectionsTargets(files, known, front);
      TargetsConcat(Sections(files, known, front), Section(files, known, last));
      SectionTargets(files, known, last);
      ListedIsGroup(known, last);
      FilterUnion(known, p => Group(p) in front && p != ROOT_INDEX, p => Group(p) == last && p != ROOT_INDEX,
                  p => Group(p) in keys && p != ROOT_INDEX);
    }
  }

  lemma SectionKeysCover(known: seq<string>)
    ensures Distinct(SectionKeys(known))
    ensures forall p :: p in known ==> Group(p) in SectionKeys(known)
  {
    var keys := Keys(known, Group);
    SortPermutes(keys, SectionOrder);
    DistinctPermutation(keys, SectionKeys(known));
    MultisetMembers(SectionKeys(known), keys);
  }

  /** The rows of the root index link every tracked document except itself as often
      as it is tracked, and nothing else: no group drops, repeats or shares a path. */
  lemma RootIndexComplete(w: Wording, files: Files, known: seq<string>)
    ensures multiset(Targets(RootLines(w, files, known))) == multiset(Filter(known, IsListed))
  {
    var keys := SectionKeys(known);
    SectionKeysCover(known);
    SectionsTargets(files, known, keys);
    TargetsConcat(RootPreamble(w), Sections(files, known, keys));
    ProseHasNoTargets(RootPreamble(w));
    FilterCongruent(known, p => Group(p) in keys && p != ROOT_INDEX, IsListed);
  }

  // ---------- order ----------

  lemma NewerFirstIsTotalOrder()
    ensures TotalOrder(NewerFirst)
  {
    forall a, b
      ensures NewerFirst(a, b) || NewerFirst(b, a)
    {
      StrLeTotal(a, b);
      StrLeTotal(DateKey(Name(a)), DateKey(Name(b)));
    }
    forall a, b, c | NewerFirst(a, b) && NewerFirst(b, c)
      ensures NewerFirst(a, c)
    {
      NewerFirstTransitive(a, b, c);
    }
  }

  lemma NewerFirstTransitive(a: string, b: string, c: string)
    requires NewerFirst(a, b) && NewerFirst(b, c)
    ensures NewerFirst(a, c)
  {
    var da, db, dc := DateKey(Name(a)), DateKey(Name(b)), DateKey(Name(c));
    if da == db == dc {
      StrLeTransitive(c, b, a);
    } else if da != db && db != dc {
      StrLeTransitive(dc, db, da);
      StrLeTotal(da, db);
    }
  }

  /** Within a section, a document precedes those of earlier dates and, among those
      of its own date, those of smaller paths. */
  lemma SectionsAreNewestFirst(known: seq<string>, key: string, i: nat, j: nat)
    requires i < j < |Listed(known, key)|
    ensures var first, second := Listed(known, key)[i], Listed(known, key)[j];
            && StrLe(DateKey(Name(second)), DateKey(Name(first)))
            && (DateKey(Name(second)) == DateKey(Name(first)) ==> StrLe(second, first))
  {
    NewerFirstIsTotalOrder();
    SortOrders(Members(known, key), NewerFirst);
    FilterKeepsOrder(Sort(Members(known, key), NewerFirst), IsListed, NewerFirst);
    StrLeTotal(DateKey(Name(Listed(known, key)[i])), DateKey(Name(Listed(known, key)[i])));
  }

  lemma SectionOrderIsTotalOrder()
    ensures TotalOrder(SectionOrder)
  {
    forall a, b
      ensures SectionOrder(a, b) || SectionOrder(b, a)
    {
      StrLeTotal(a, b);
    }
    forall a, b, c | SectionOrder(a, b) && SectionOrder(b, c)
      ensures SectionOrder(a, c)
    {
      SectionOrderTransitive(a, b, c);
    }
  }

  lemma SectionOrderTransitive(a: string, b: string, c: string)
    requires SectionOrder(a, b) && SectionOrder(b, c)
    ensures SectionOrder(a, c)
  {
    if RootRank(a) == RootRank(b) == RootRank(c) && TopRank(a) == TopRank(b) == TopRank(c) {
      StrLeTransitive(a, b, c);
    }
  }

  predicate InTop(key: string, top: string) {
    key == top || StartsWith(key, top + "/")
  }

  predicate SameTop(a: string, b: string, top: string) {
    InTop(a, top) <==> InTop(b, top)
  }

  lemma InTopIff(key: string, top: string)
    requires '/' !in top
    ensures Parts(key)[0] == top <==> InTop(key, top)
  {
    if key == top {
      SplitWhole(key, '/');
    } else if StartsWith(key, top + "/") {
      var rest := key[|top| + 1..];
      assert key == top + ['/'] + rest;
      SplitFirst(top, '/', rest);
    }
    JoinSplit(key, '/');
    var parts := Parts(key);
    if parts[0] == top && |parts| > 1 {
      assert key == top + "/" + Join(parts[1..], "/");
    }
  }

  /** The section of the root comes first, then those of docs, of scripts and of all
      other folders, each by name; no two are of the same folder. */
  lemma SectionsInOrder(known: seq<string>, i: nat, j: nat)
    requires i < j < |SectionKeys(known)|
    ensures var first, second := SectionKeys(known)[i], SectionKeys(known)[j];
            && first != second && second != "."
            && (first != "." ==>
                  && (InTop(second, "docs") ==> InTop(first, "docs"))
                  && (InTop(second, "scripts") ==> InTop(first, "docs") || InTop(first, "scripts"))
                  && (SameTop(first, second, "docs") && SameTop(first, second, "scripts") ==> StrLe(first, second)))
  {
    var first, second := SectionKeys(known)[i], SectionKeys(known)[j];
    SectionOrderIsTotalOrder();
    SortOrders(Keys(known, Group), SectionOrder);
    SectionKeysCover(known);
    InTopIff(first, "docs");
    InTopIff(first, "scripts");
    InTopIff(second, "docs");
    InTopIff(second, "scripts");
  }

  /** There is a section for each folder that holds a document, and for no other. */
  lemma SectionsExact(known: seq<string>, key: string)
    ensures key in SectionKeys(known) <==> exists path :: path in known && Group(path) == key
  {
    var keys := Keys(known, Group);
    SortPermutes(keys, SectionOrder);
    MultisetMembers(SectionKeys(known), keys);
  }

  // ---------- headings ----------

  /** The last of some lines that is neither blank nor a row. */
  function LastHeading(above: seq<Line>): string {
    if above == [] then ""
    else
      var last := above[|above| - 1];
      if last.Prose? && last.text != "" then last.text else LastHeading(above[..|above| - 1])
  }

  lemma {:induction false} HeadingOverRows(above: seq<Line>, rows: seq<Line>)
    requires forall l :: l in rows ==> l.Link?
    ensures LastHeading(above + rows) == LastHeading(above)
  {
    if rows == [] {
      assert above + rows == above;
    } else {
      var front, last := rows[..|rows| - 1], rows[|rows| - 1];
      assert above + rows == above + front + [last];
      HeadingOverRows(above, front);
      assert last in rows;
      LastStep(above + front, last);
    }
  }

  lemma LastStep(above: seq<Line>, l: Line)
    ensures LastHeading(above + [l]) == if l.Prose? && l.text != "" then l.text else LastHeading(above)
  {
    assert (above + [l])[..|above|] == above;
  }

  lemma HeadingOfSection(before: seq<Line>, key: string)
    ensures LastHeading(before + [Prose(SectionHeading(key)), Prose("")]) == SectionHeading(key)
  {
    var heading := Prose(SectionHeading(key));
    assert before + [heading, Prose("")] == before + [heading] + [Prose("")];
    LastStep(before + [heading], Prose(""));
    LastStep(before, heading);
  }

  /** A row stands under the heading of its own folder. */
  predicate OwnHeading(above: seq<Line>, l: Line) {
    l.Link? ==> LastHeading(above) == SectionHeading(Group(l.target))
  }

  ghost predicate UnderOwnHeading(lines: seq<Line>) {
    forall i :: 0 <= i < |lines| ==> OwnHeading(lines[..i], lines[i])
  }

  lemma OwnHeadingNext(lines: seq<Line>, l: Line)
    requires UnderOwnHeading(lines) && OwnHeading(lines, l)
    ensures UnderOwnHeading(lines + [l])
  {
    forall i | 0 <= i < |lines + [l]|
      ensures OwnHeading((lines + [l])[..i], (lines + [l])[i])
    {
      assert (lines + [l])[..i] == lines[..i];
    }
  }

  lemma {:induction false} RowsUnderHeading(above: seq<Line>, rows: seq<Line>)
    requires UnderOwnHeading(above)
    requires forall l :: l in rows ==> l.Link? && LastHeading(above) == SectionHeading(Group(l.target))
    ensures UnderOwnHeading(above + rows)
  {
    if rows == [] {
      assert above + rows == above;
    } else {
      var front, last := rows[..|rows| - 1], rows[|rows| - 1];
      assert above + rows == above + front + [last];
      assert last in rows;
      RowsUnderHeading(above, front);
      HeadingOverRows(above, front);
      OwnHeadingNext(above + front, last);
    }
  }

  lemma SectionUnderHeading(before: seq<Line>, files: Files, known: seq<string>, key: string)
    requires UnderOwnHeading(before)
    ensures UnderOwnHeading(before + Section(files, known, key))
  {
    var heading, rows := Prose(SectionHeading(key)), LinkRows(files, Listed(known, key), Whole);
    OwnHeadingNext(before, heading);
    OwnHeadingNext(before + [heading], Prose(""));
    assert before + [heading] + [Prose("")] == before + [heading, Prose("")];
    HeadingOfSection(before, key);
    RowsInGroup(files, known, key);
    RowsUnderHeading(before + [heading, Prose("")], rows);
    OwnHeadingNext(before + [heading, Prose("")] + rows, Prose(""));
    SectionShape(before, files, known, key);
  }

  lemma RowsInGroup(files: Files, known: seq<string>, key: string)
    ensures forall l :: l in LinkRows(files, Listed(known, key), Whole) ==> l.Link? && Group(l.target) == key
  {
    var rows := LinkRows(files, Listed(known, key), Whole);
    forall j | 0 <= j < |rows|
      ensures rows[j].Link? && Group(rows[j].target) == key
    {
      ListedInGroup(known, key, j);
    }
  }

  lemma SectionShape(before: seq<Line>, files: Files, known: seq<string>, key: string)
    ensures before + Section(files, known, key)
         == before + [Prose(SectionHeading(key)), Prose("")] + LinkRows(files, Listed(known, key), Whole) + [Prose("")]
  {}

  lemma ListedInGroup(known: seq<string>, key: string, j: nat)
    requires j < |Listed(known, key)|
    ensures Group(Listed(known, key)[j]) == key
  {
    var members := Members(known, key);
    FilterMembers(known, path => Group(path) == key);
    SortPermutes(members, NewerFirst);
    MultisetMembers(Sort(members, NewerFirst), members);
    FilterMembers(Sort(members, NewerFirst), IsListed);
    assert Listed(known, key)[j] in Listed(known, key);
  }

  lemma {:induction false} SectionsUnderHeadings(before: seq<Line>, files: Files, known: seq<string>, keys: seq<string>)
    requires UnderOwnHeading(before)
    ensures UnderOwnHeading(before + Sections(files, known, keys))
  {
    if keys == [] {
      assert before + Sections(files, known, keys) == before;
    } else {
      var front, last := keys[..|keys| - 1], keys[|keys| - 1];
      SectionsUnderHeadings(before, files, known, front);
      SectionUnderHeading(before + Sections(files, known, front), files, known, last);
      Associate(before, Sections(files, known, front), Section(files, known, last));
    }
  }

  /** In the root index every document stands under the heading of its own folder. */
  lemma RowsUnderOwnHeading(w: Wording, files: Files, known: seq<string>)
    ensures UnderOwnHeading(RootLines(w, files, known))
  {
    SectionsUnderHeadings(RootPreamble(w), files, known, SectionKeys(known));
  }

  // ---------- the docs index ----------

  /** The paths the rows of the docs index stand for. */
  function UnderDocs(targets: seq<string>): seq<string> {
    seq(|targets|, i requires 0 <= i < |targets| => DOCS_PREFIX + targets[i])
  }

  lemma NameUnderDocs(path: string)
    requires |Parts(path)| == 2 && Parts(path)[0] == "docs"
    ensures DOCS_PREFIX + Name(path) == path
  {
    var parts := Parts(path);
    JoinSplit(path, '/');
    assert parts[1..] == [parts[1]];
    assert Join(parts, "/") == parts[0] + "/" + parts[1];
  }

  /** Rows whose links are relative to docs/ stand for their paths. */
  lemma RelativeTargets(files: Files, paths: seq<string>, link: string -> string)
    requires forall p :: p in paths ==> DOCS_PREFIX + link(p) == p
    ensures UnderDocs(Targets(LinkRows(files, paths, link))) == paths
  {
    LinkTargets(files, paths, link);
    assert forall i :: 0 <= i < |paths| ==> paths[i] in paths;
  }

  lemma RelLinkUnderDocs(path: string)
    requires StartsWith(path, DOCS_PREFIX)
    ensures DOCS_PREFIX + RelLink(path) == path
  {}

  /** Carrying the prefix of a sub-folder is the same as lying in it: the
      prefixes of two folders never overlap. */
  lemma PrefixIsFolder(path: string, s: string)
    requires '/' !in s
    ensures StartsWith(path, SubPrefix(s)) <==> InSubFolder(path) && SubFolder(path) == s
  {
    if StartsWith(path, SubPrefix(s)) {
      var rest := path[|SubPrefix(s)|..];
      assert path == SubPrefix(s) + rest;
      NestedParts("docs", s, rest);
    }
    if InSubFolder(path) && SubFolder(path) == s {
      NestedPath(path);
    }
  }

  /** The parts of a path two folders deep. */
  lemma NestedParts(top: string, s: string, rest: string)
    requires '/' !in top && '/' !in s
    ensures Parts(top + "/" + s + "/" + rest) == [top, s] + Split(rest, '/')
  {
    assert top + "/" + s + "/" + rest == top + ['/'] + (s + ['/'] + rest);
    SplitFirst(top, '/', s + ['/'] + rest);
    SplitFirst(s, '/', rest);
  }

  lemma NestedPath(path: string)
    requires |Parts(path)| > 2
    ensures StartsWith(path, Parts(path)[0] + "/" + Parts(path)[1] + "/")
  {
    var parts := Parts(path);
    JoinSplit(path, '/');
    assert parts[1..][1..] == parts[2..];
    assert path == parts[0] + "/" + (parts[1] + "/" + Join(parts[2..], "/"));
    assert path == parts[0] + "/" + parts[1] + "/" + Join(parts[2..], "/");
  }

  lemma SubReadmeInFolder(s: string)
    requires '/' !in s
    ensures InSubFolder(SubReadme(s)) && SubFolder(SubReadme(s)) == s
  {
    NestedParts("docs", s, "README.md");
  }

  lemma UnderDocsConcat(a: seq<string>, b: seq<string>)
    ensures UnderDocs(a + b) == UnderDocs(a) + UnderDocs(b)
  {}

  function InFolder(s: string): string -> bool {
    path => InSubFolder(path) && SubFolder(path) == s
  }

  function IsDocument(path: string): bool {
    DirectlyUnderDocs(path) || InSubFolder(path)
  }

  /** How often the rows of its folder stand for a document: a README once, any
      other document as often as it is tracked. */
  function RowCount(known: seq<string>, path: string): nat {
    if path == SubReadme(SubFolder(path)) then (if path in known then 1 else 0) else multiset(known)[path]
  }

  lemma FolderRowsTargets(files: Files, known: seq<string>, s: string, path: string)
    requires '/' !in s
    ensures multiset(UnderDocs(Targets(FolderRows(files, known, s))))[path]
         == if InFolder(s)(path) then RowCount(known, path) else 0
  {
    var readme := SubReadme(s);
    var readmeRow := if readme in known then [Link(s + "/", s + "/README.md", "")] else [];
    var paths := SubFiles(known, s);
    FilterMembers(known, path => StartsWith(path, SubPrefix(s)) && path != readme);
    forall p | p in paths
      ensures DOCS_PREFIX + RelLink(p) == p
    {
      assert SubPrefix(s)[..|DOCS_PREFIX|] == DOCS_PREFIX;
      RelLinkUnderDocs(p);
    }
    RelativeTargets(files, paths, RelLink);
    TargetsConcat(readmeRow, LinkRows(files, paths, RelLink));
    UnderDocsConcat(Targets(readmeRow), Targets(LinkRows(files, paths, RelLink)));
    ReadmeRowTarget(s);
    SubReadmeInFolder(s);
    PrefixIsFolder(path, s);
    FilterCount(known, path => StartsWith(path, SubPrefix(s)) && path != readme, path);
  }

  lemma ReadmeRowTarget(s: string)
    ensures UnderDocs(Targets([Link(s + "/", s + "/README.md", "")])) == [SubReadme(s)]
  {
    var target := s + "/README.md";
    assert target == s + "/" + "README.md";
    assert DOCS_PREFIX + target == SubReadme(s);
    assert Targets([Link(s + "/", target, "")]) == [target];
  }

  lemma {:induction false} SubRowsTargets(files: Files, known: seq<string>, subs: seq<string>, path: string)
    requires Distinct(subs) && forall s :: s in subs ==> '/' !in s
    ensures multiset(UnderDocs(Targets(SubRows(files, known, subs))))[path]
         == if InSubFolder(path) && SubFolder(path) in subs then RowCount(known, path) else 0
  {
    if subs != [] {
      var front, last := subs[..|subs| - 1], subs[|subs| - 1];
      SubRowsTargets(files, known, front, path);
      FolderRowsTargets(files, known, last, path);
      TargetsConcat(SubRows(files, known, front), FolderRows(files, known, last));
      UnderDocsConcat(Targets(SubRows(files, known, front)), Targets(FolderRows(files, known, last)));
    }
  }

  lemma SubFoldersCover(known: seq<string>)
    ensures Distinct(SubFolders(known))
    ensures forall s :: s in SubFolders(known) ==> '/' !in s
    ensures forall p :: p in known && InSubFolder(p) ==> SubFolder(p) in SubFolders(known)
  {
    var nested := Filter(known, InSubFolder);
    var keys := Keys(nested, SubFolder);
    FilterMembers(known, InSubFolder);
    SortPermutes(keys, StrLe);
    DistinctPermutation(keys, SubFolders(known));
    MultisetMembers(SubFolders(known), keys);
    forall s | s in SubFolders(known)
      ensures '/' !in s
    {
      var p :| p in nested && SubFolder(p) == s;
      PieceChars(p, '/', s);
    }
  }

  /** The rows of the docs index link a document below docs/, at any depth, as often
      as it is tracked, the README of a sub-folder at most once, and link nothing
      else: docs/README.md and docs/INDEX.md have no row. */
  lemma DocsIndexComplete(w: Wording, files: Files, known: seq<string>, path: string)
    ensures multiset(UnderDocs(Targets(DocsLines(w, files, known))))[path]
         == if InSubFolder(path) then RowCount(known, path)
            else if DirectlyUnderDocs(path) then multiset(known)[path]
            else 0
  {
    var subRows, rows := SubRows(files, known, SubFolders(known)), LinkRows(files, DirectDocs(known), Name);
    DocsLinesTargets(w, subRows, rows);
    UnderDocsConcat(Targets(subRows), Targets(rows));
    SubFoldersCover(known);
    SubRowsTargets(files, known, SubFolders(known), path);
    DirectRowsTargets(files, known, path);
    MultisetCount(known, path);
  }

  lemma DocsLinesTargets(w: Wording, subRows: seq<Line>, rows: seq<Line>)
    ensures Targets(DocsLinesOf(w, subRows, rows)) == Targets(subRows) + Targets(rows)
  {
    FixedLinesHaveNoTarget(w);
    RemarkHasNoTarget(subRows, NO_FOLDERS);
    RemarkHasNoTarget(rows, "");
    FiveTargets(DocsTop(w), Otherwise(subRows, NO_FOLDERS), DocsMiddle(), Otherwise(rows, ""), [Prose("")]);
    TwoGaps([], Targets(subRows), Targets(rows));
  }

  lemma FiveTargets(a: seq<Line>, b: seq<Line>, c: seq<Line>, d: seq<Line>, e: seq<Line>)
    ensures Targets(a + b + c + d + e) == Targets(a) + Targets(b) + Targets(c) + Targets(d) + Targets(e)
  {
    TargetsConcat(a + b + c + d, e);
    TargetsConcat(a + b + c, d);
    TargetsConcat(a + b, c);
    TargetsConcat(a, b);
  }

  lemma FixedLinesHaveNoTarget(w: Wording)
    ensures Targets(DocsTop(w)) == Targets(DocsMiddle()) == Targets([Prose("")]) == []
  {
    ProseHasNoTargets(DocsTop(w));
    ProseHasNoTargets(DocsMiddle());
    ProseHasNoTargets([Prose("")]);
  }

  lemma RemarkHasNoTarget(rows: seq<Line>, remark: string)
    ensures Targets(Otherwise(rows, remark)) == Targets(rows)
  {
    ProseHasNoTargets([Prose(remark)]);
  }

  lemma DirectRowsTargets(files: Files, known: seq<string>, path: string)
    ensures multiset(UnderDocs(Targets(LinkRows(files, DirectDocs(known), Name))))[path]
         == if DirectlyUnderDocs(path) then multiset(known)[path] else 0
  {
    SortPermutes(known, StrLe);
    FilterMembers(Sort(known, StrLe), DirectlyUnderDocs);
    forall p | p in DirectDocs(known) {
      NameUnderDocs(p);
    }
    RelativeTargets(files, DirectDocs(known), Name);
    FilterCount(Sort(known, StrLe), DirectlyUnderDocs, path);
  }

  lemma MultisetCount(known: seq<string>, path: string)
    ensures multiset(known)[path] > 0 <==> path in known
  {}

  /** Without repetitions in what is tracked, those rows are the documents, once each. */
  lemma DocsIndexOnce(w: Wording, files: Files, known: seq<string>)
    requires Distinct(known)
    ensures multiset(UnderDocs(Targets(DocsLines(w, files, known)))) == multiset(Filter(known, IsDocument))
  {
    var rows, wanted := multiset(UnderDocs(Targets(DocsLines(w, files, known)))), multiset(Filter(known, IsDocument));
    forall path: string
      ensures rows[path] == wanted[path]
    {
      DocsIndexComplete(w, files, known, path);
      FilterCount(known, IsDocument, path);
      DistinctCount(known, path);
    }
    SameCounts(rows, wanted);
  }

  /** Which documents those are, in terms of the path itself. */
  lemma DocumentsAreBelowDocs(path: string)
    ensures IsDocument(path) <==> StartsWith(path, DOCS_PREFIX) && path != DOCS_README && path != DOCS_INDEX
  {
    BelowDocs(path);
    TwoParts("README.md");
    TwoParts("INDEX.md");
    if |Parts(path)| == 2 && Parts(path)[0] == "docs" {
      NameUnderDocs(path);
    }
  }

  lemma BelowDocs(path: string)
    ensures StartsWith(path, DOCS_PREFIX) <==> |Parts(path)| >= 2 && Parts(path)[0] == "docs"
  {
    var parts := Parts(path);
    if StartsWith(path, DOCS_PREFIX) {
      var rest := path[|DOCS_PREFIX|..];
      assert path == "docs" + ['/'] + rest;
      SplitFirst("docs", '/', rest);
    }
    if |parts| >= 2 && parts[0] == "docs" {
      JoinSplit(path, '/');
      assert path == parts[0] + "/" + Join(parts[1..], "/");
    }
  }

  lemma TwoParts(name: string)
    requires '/' !in name
    ensures Parts(DOCS_PREFIX + name) == ["docs", name]
  {
    SplitFirst("docs", '/', name);
    SplitWhole(name, '/');
  }
}
