/** The text of the two generated document indexes, as a function of the files
    and of the list of tracked documents. */
module DocIndex {
  import opened Outcomes
  import opened Text
  import opened Sorting

  /** File contents by path. */
  type Files = map<string, string>

  predicate OneLine(s: string) {
    '\r' !in s && '\n' !in s
  }

  /** Text without a line break. */
  type Phrase = s: string | OneLine(s)

  /** What the fixed lines of the indexes say: the title of the root index, the
      paragraph each index opens with, and the row for the docs indexes. */
  datatype Wording = Wording(title: Phrase, intro: Phrase, folders: Phrase, docsIntro: Phrase)

  const ROOT_INDEX := "INDEX.md"
  const DOCS_PREFIX := "docs" + "/"
  const DOCS_INDEX := DOCS_PREFIX + "INDEX.md"
  const DOCS_README := DOCS_PREFIX + "README.md"
  const TOP_ORDER := ["docs", "scripts"]
  const SKIP_DIRS := [".git", ".worktrees", ".scratch", ".icc", "artifacts", "__pycache__", "node_modules"]
  const DOCS_HEADING := "docs/ index (complete, generated)"

  const DOCS_FIRST_LINE := "# " + DOCS_HEADING

  // ---------- tracked documents ----------

  function WordLength(s: string): (n: nat)
    ensures n <= |s|
    ensures forall c :: c in s[..n] ==> !IsPythonSpace(c)
  {
    if s == "" || IsPythonSpace(s[0]) then 0 else 1 + WordLength(s[1..])
  }

  /** `str.split()` without arguments. */
  function Words(s: string): (words: seq<string>)
    ensures forall w, c :: w in words && c in w ==> !IsPythonSpace(c)
    decreases |s|
  {
    if s == "" then []
    else if IsPythonSpace(s[0]) then Words(s[1..])
    else [s[..WordLength(s)]] + Words(s[WordLength(s)..])
  }

  function Parts(path: string): (parts: seq<string>)
    ensures |parts| >= 1
  {
    Split(path, '/')
  }

  function Name(path: string): string {
    Parts(path)[|Parts(path)| - 1]
  }

  /** The tracked documents, from the output of `git ls-files`. */
  function Tracked(lsFiles: string): seq<string> {
    Filter(Words(lsFiles), path => forall part :: part in Parts(path) ==> part !in SKIP_DIRS)
  }

  // ---------- titles ----------

  /** Universal newlines, as text files are read. */
  function Universal(s: string): (t: string)
    ensures '\r' !in t
    ensures '\r' !in s ==> t == s
  {
    if s == "" then ""
    else if s[0] != '\r' then [s[0]] + Universal(s[1..])
    else "\n" + Universal(if |s| > 1 && s[1] == '\n' then s[2..] else s[1..])
  }

  function FirstHeading(lines: seq<string>): Option<string> {
    if lines == [] then None
    else if StartsWith(lines[0], "#") then Some(HeadingText(lines[0]))
    else FirstHeading(lines[1..])
  }

  predicate IsHash(c: char) {
    c == '#'
  }

  function HeadingText(line: string): (title: string)
    ensures forall c :: c in title ==> c in line
  {
    var stripped := Trim(TrimLeft(line, IsHash), IsPythonSpace);
    if |stripped| > 110 then stripped[..110] else stripped
  }

  function LastDot(name: string): (n: nat)
    ensures n <= |name|
  {
    if name == "" then 0 else if name[|name| - 1] == '.' then |name| - 1 else LastDot(name[..|name| - 1])
  }

  /** The name without its suffix; a leading or trailing dot starts no suffix. */
  function Stem(name: string): (stem: string)
    ensures forall c :: c in stem ==> c in name
  {
    if 0 < LastDot(name) < |name| - 1 then name[..LastDot(name)] else name
  }

  /** The first Markdown heading of a document, or its stem. */
  function Title(files: Files, path: string): string {
    if path in files then
      match FirstHeading(Split(Universal(files[path]), '\n'))
      case Some(title) => title
      case None => Stem(Name(path))
    else Stem(Name(path))
  }

  // ---------- dates and orders ----------

  /** The date at the front of `s`: a year of this century, a month and a day,
      with an optional hyphen before each of the last two. */
  function DateAt(s: string): Option<string> {
    if |s| < 8 || !(s[0] == '2' && s[1] == '0' && IsDigit(s[2]) && IsDigit(s[3])) then None
    else
      var m := if s[4] == '-' then 5 else 4;
      if |s| < m + 4 || !((s[m] == '0' || s[m] == '1') && IsDigit(s[m + 1])) then None
      else
        var d := if s[m + 2] == '-' then m + 3 else m + 2;
        if |s| < d + 2 || !(IsDigit(s[d]) && IsDigit(s[d + 1])) then None
        else Some(s[..4] + s[m..m + 2] + s[d..d + 2])
  }

  function DateKey(name: string): string {
    if name == "" then "0"
    else
      match DateAt(name)
      case Some(date) => date
      case None => DateKey(name[1..])
  }

  /** Descending by date, then by path. A root document is its own name. */
  predicate NewerFirst(a: string, b: string) {
    var da, db := DateKey(Name(a)), DateKey(Name(b));
    if da == db then StrLe(b, a) else StrLe(db, da)
  }

  function TopRank(key: string): nat {
    var top := Parts(key)[0];
    if top == TOP_ORDER[0] then 0 else if top == TOP_ORDER[1] then 1 else 99
  }

  function RootRank(key: string): nat {
    if key == "." then 0 else 1
  }

  predicate SectionOrder(a: string, b: string) {
    if RootRank(a) != RootRank(b) then RootRank(a) < RootRank(b)
    else if TopRank(a) != TopRank(b) then TopRank(a) < TopRank(b)
    else StrLe(a, b)
  }

  // ---------- lines ----------

  datatype Line = Prose(text: string) | Link(text: string, target: string, suffix: string)
  {
    function Render(): string {
      match this
      case Prose(text) => text
      case Link(text, target, suffix) => "- [" + text + "](" + target + ")" + suffix
    }
  }

  function RenderAll(lines: seq<Line>): (texts: seq<string>)
    ensures |texts| == |lines|
    ensures forall i :: 0 <= i < |lines| ==> texts[i] == lines[i].Render()
  {
    seq(|lines|, i requires 0 <= i < |lines| => lines[i].Render())
  }

  /** The targets of the link rows, in order. */
  function Targets(lines: seq<Line>): seq<string> {
    if lines == [] then []
    else (if lines[0].Link? then [lines[0].target] else []) + Targets(lines[1..])
  }

  function Titled(title: string): string {
    " \U{2014} " + title
  }

  // ---------- the root index ----------

  function Group(path: string): string {
    var parts := Parts(path);
    if |parts| == 1 then "."
    else if parts[0] == "docs" && |parts| > 2 then "docs/" + parts[1]
    else parts[0]
  }

  function Members(known: seq<string>, key: string): seq<string> {
    Filter(known, path => Group(path) == key)
  }

  predicate IsListed(path: string) {
    path != ROOT_INDEX
  }

  /** The documents a section lists, in the order it lists them. */
  function Listed(known: seq<string>, key: string): seq<string> {
    Filter(Sort(Members(known, key), NewerFirst), IsListed)
  }

  function Whole(path: string): string {
    path
  }

  function LinkRow(files: Files, path: string, target: string): Line {
    Link(target, target, Titled(Title(files, path)))
  }

  /** One titled row for every path, linking what `link` makes of the path. */
  function LinkRows(files: Files, paths: seq<string>, link: string -> string): (rows: seq<Line>)
    ensures |rows| == |paths|
    ensures forall i :: 0 <= i < |paths| ==> rows[i] == LinkRow(files, paths[i], link(paths[i]))
  {
    seq(|paths|, i requires 0 <= i < |paths| => LinkRow(files, paths[i], link(paths[i])))
  }

  function SectionHeading(key: string): string {
    if key == "." then "## Root-level documents" else "## `" + key + "/`"
  }

  /** The heading of a section and the rows of its sorted group, the index itself left out. */
  function SectionOf(files: Files, key: string, sorted: seq<string>): seq<Line> {
    [Prose(SectionHeading(key)), Prose("")] + LinkRows(files, Filter(sorted, IsListed), Whole) + [Prose("")]
  }

  function Section(files: Files, known: seq<string>, key: string): seq<Line> {
    SectionOf(files, key, Sort(Members(known, key), NewerFirst))
  }

  function Sections(files: Files, known: seq<string>, keys: seq<string>): seq<Line> {
    if keys == [] then []
    else Sections(files, known, keys[..|keys| - 1]) + Section(files, known, keys[|keys| - 1])
  }

  function SectionKeys(known: seq<string>): seq<string> {
    Sort(Keys(known, Group), SectionOrder)
  }

  function RootPreamble(w: Wording): seq<Line> {
    [Prose(w.title), Prose(""), Prose(w.intro), Prose(""),
     Prose("## Folder indexes"), Prose(""), Prose(w.folders), Prose("")]
  }

  function RootLines(w: Wording, files: Files, known: seq<string>): seq<Line> {
    RootPreamble(w) + Sections(files, known, SectionKeys(known))
  }

  function RootIndex(w: Wording, files: Files, known: seq<string>): string {
    Join(RenderAll(RootLines(w, files, known)), "\n")
  }

  // ---------- the docs index ----------

  predicate DirectlyUnderDocs(path: string) {
    var parts := Parts(path);
    |parts| == 2 && parts[0] == "docs" && parts[1] != "README.md" && parts[1] != "INDEX.md"
  }

  function DirectDocs(known: seq<string>): seq<string> {
    Filter(Sort(known, StrLe), DirectlyUnderDocs)
  }

  predicate InSubFolder(path: string) {
    var parts := Parts(path);
    |parts| > 2 && parts[0] == "docs"
  }

  function SubFolder(path: string): string {
    if InSubFolder(path) then Parts(path)[1] else ""
  }

  function SubFolders(known: seq<string>): seq<string> {
    Sort(Keys(Filter(known, InSubFolder), SubFolder), StrLe)
  }

  function SubPrefix(s: string): string {
    DOCS_PREFIX + s + "/"
  }

  function SubReadme(s: string): string {
    SubPrefix(s) + "README.md"
  }

  function SubFiles(known: seq<string>, s: string): seq<string> {
    Filter(known, path => StartsWith(path, SubPrefix(s)) && path != SubReadme(s))
  }

  /** A path under docs/, relative to docs/. */
  function RelLink(path: string): string {
    if StartsWith(path, DOCS_PREFIX) then path[|DOCS_PREFIX|..] else path
  }

  function FolderRows(files: Files, known: seq<string>, s: string): seq<Line> {
    (if SubReadme(s) in known then [Link(s + "/", s + "/README.md", "")] else [])
    + LinkRows(files, SubFiles(known, s), RelLink)
  }

  function SubRows(files: Files, known: seq<string>, subs: seq<string>): seq<Line> {
    if subs == [] then []
    else SubRows(files, known, subs[..|subs| - 1]) + FolderRows(files, known, subs[|subs| - 1])
  }

  const SUB_HEADING := "## Sub-folders"
  const NO_FOLDERS := "- (none)"
  const DIRECT_HEADING := "## Documents directly under docs/"

  /** What the docs index says for given rows, below its heading. */
  function DocsBody(w: Wording, subRows: seq<Line>, rows: seq<Line>): string {
    "\n" + w.docsIntro + "\n\n" + SUB_HEADING + "\n\n"
    + (if subRows != [] then Join(RenderAll(subRows), "\n") else NO_FOLDERS) + "\n\n"
    + DIRECT_HEADING + "\n\n"
    + Join(RenderAll(rows), "\n") + "\n"
  }

  function DocsIndex(w: Wording, files: Files, known: seq<string>): string {
    DOCS_FIRST_LINE + "\n"
    + DocsBody(w, SubRows(files, known, SubFolders(known)), LinkRows(files, DirectDocs(known), Name))
  }

  /** The lines above the rows for sub-folders, and those between the two lists. */
  function DocsTop(w: Wording): seq<Line> {
    [Prose(DOCS_FIRST_LINE), Prose(""), Prose(w.docsIntro), Prose(""), Prose(SUB_HEADING), Prose("")]
  }

  function DocsMiddle(): seq<Line> {
    [Prose(""), Prose(DIRECT_HEADING), Prose("")]
  }

  function Otherwise(rows: seq<Line>, remark: string): (lines: seq<Line>)
    ensures lines != []
  {
    if rows != [] then rows else [Prose(remark)]
  }

  /** The same text, line by line. */
  function DocsLinesOf(w: Wording, subRows: seq<Line>, rows: seq<Line>): seq<Line> {
    DocsTop(w) + Otherwise(subRows, NO_FOLDERS) + DocsMiddle() + Otherwise(rows, "") + [Prose("")]
  }

  function DocsLines(w: Wording, files: Files, known: seq<string>): seq<Line> {
    DocsLinesOf(w, SubRows(files, known, SubFolders(known)), LinkRows(files, DirectDocs(known), Name))
  }
}
