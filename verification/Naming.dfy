/** How pages are named: routes, languages, file names, and the way back. */
module Naming {
  import opened Wrappers
  import opened Text
  import opened Paths
  import opened Places

  datatype NameError = BadRoute | BadLang

  function TrimPrefix(s: string, p: string): string {
    if HasPrefix(s, p) then s[|p|..] else s
  }

  function TrimSuffix(s: string, p: string): string {
    if HasSuffix(s, p) then s[..|s| - |p|] else s
  }

  /** The route without its slash, and whether it is the root page; reader and mutations agree on this. */
  function NormalizeRoute(route: string): Result<(string, bool), NameError> {
    var s := TrimPrefix(TrimSpace(route), "/");
    if s == "" || s == "_index" || s == "index" then Ok(("_index", true))
    else if Contains(s, "\\") || HasPrefix(s, "/") || Contains(s, "..") then Err(BadRoute)
    else match ValidateRelative(s)
      case Err(_) => Err(BadRoute)
      case Ok(clean) => Ok((clean, false))
  }

  predicate LangLetters(lang: string) {
    2 <= |lang| <= 3 && forall i :: 0 <= i < |lang| ==> 'a' <= lang[i] <= 'z'
  }

  function NormalizeOptionalLang(raw: string): Result<string, NameError> {
    var lang := TrimSpace(raw);
    if lang == "" then Ok("") else if LangLetters(lang) then Ok(lang) else Err(BadLang)
  }

  function NormalizeCreateLang(raw: string): Result<string, NameError> {
    if raw == "" then Ok("fr") else NormalizeOptionalLang(raw)
  }

  function PageRelativePath(root: bool, route: string, lang: string): string {
    if root then "_index." + lang + ".md" else JoinPath(route, "index." + lang + ".md")
  }

  function MutationGetRoute(root: bool, route: string): string {
    if root then "_index" else "/" + route
  }

  /** Looking up the path comes to a file. */
  predicate Holds(files: set<string>, rel: string) {
    ReadPlace(rel).Some? && ReadPlace(rel).value in files
  }

  /** The path the reader picks for a route, among those that lead to a file; it is not changed by the guard. */
  function FindPage(route: string, lang: string, files: set<string>): (rel: Option<string>)
    ensures rel.Some? ==> Holds(files, rel.value)
  {
    if route == "_index" then
      if lang != "" && Holds(files, "_index." + lang + ".md") then Some("_index." + lang + ".md")
      else if Holds(files, "_index.md") then Some("_index.md") else None
    else if lang != "" && Holds(files, JoinPath(route, "index." + lang + ".md")) then
      Some(JoinPath(route, "index." + lang + ".md"))
    else if Holds(files, JoinPath(route, "index.md")) then Some(JoinPath(route, "index.md"))
    else None
  }

  function RouteForPage(rel: string): string {
    if rel == "_index.md" then "/"
    else if HasPrefix(rel, "_index.") then "/" + TrimSuffix(Dir(rel), ".")
    else if Dir(rel) == "." then "/"
    else "/" + Dir(rel)
  }

  function LangFromName(name: string): string {
    var parts := SplitOn(Base(name), '.');
    if |parts| < 3 then "" else parts[|parts| - 2]
  }

  /** The listing walks pick these names and no others. */
  predicate ListedDirectly(name: string) {
    HasPrefix(name, "_index.") && HasSuffix(name, ".md")
  }

  predicate ListedRecursively(base: string) {
    HasPrefix(base, "index.") && HasSuffix(base, ".md") && |SplitOn(base, '.')| >= 3
  }

  // ---------- The round trip ----------

  /** A route whose segments are plain, and that is not one of the root page's names. */
  predicate CleanRoute(route: string) {
    PlainPath(route) && route != "_index" && route != "index"
  }

  function IndexName(lang: string): string {
    "index." + lang + ".md"
  }

  lemma IndexNameParts(lang: string)
    requires LangLetters(lang)
    ensures SplitOn(IndexName(lang), '.') == ["index", lang, "md"]
    ensures PlainSegment(IndexName(lang)) && ListedRecursively(IndexName(lang))
  {
    assert '.' !in lang && '/' !in lang;
    assert IndexName(lang) == "index" + ['.'] + (lang + ['.'] + "md");
    SplitFirst("index", lang + ['.'] + "md", '.');
    SplitFirst(lang, "md", '.');
    SplitWord("md", '.');
    assert IndexName(lang)[..6] == "index.";
    assert IndexName(lang)[|IndexName(lang)| - 3..] == ".md";
  }

  lemma RouteSurvives(route: string)
    requires CleanRoute(route)
    ensures NormalizeRoute(MutationGetRoute(false, route)) == Ok((route, false))
    ensures NormalizeRoute(route) == Ok((route, false))
  {
    PlainPathEnds(route);
    PlainPathKept(route);
    var given := "/" + route;
    assert Trimmed(given) && given[1..] == route;
    TrimmedFixed(given);
    assert !HasPrefix(route, "/");
  }

  lemma IndexNameTame(lang: string)
    requires LangLetters(lang)
    ensures !Contains(IndexName(lang), "\\") && !Contains(IndexName(lang), "..")
  {
    var name := IndexName(lang);
    assert forall i :: 0 <= i < |name| ==> name[i] != '\\' && (name[i] == '.' ==> i == 5 || i == 6 + |lang|);
    forall i | 0 <= i <= |name| ensures !OccursAt(name, "\\", i) && !OccursAt(name, "..", i) {
      assert i + 1 <= |name| ==> name[i..i + 1][0] == name[i];
      assert i + 2 <= |name| ==> name[i..i + 2][0] == name[i] && name[i..i + 2][1] == name[i + 1];
    }
  }

  /** The printed path, taken apart. */
  lemma PrintedPath(route: string, lang: string)
    requires CleanRoute(route) && LangLetters(lang)
    ensures var rel := PageRelativePath(false, route, lang);
      && rel == route + "/" + IndexName(lang) && PlainPath(rel)
      && Dir(rel) == route && Base(rel) == IndexName(lang)
  {
    IndexNameParts(lang);
    IndexNameTame(lang);
    AppendSegment(route, IndexName(lang));
    PathWithName(route, IndexName(lang));
  }

  /**
   * The path Create prints for a clean route is the one the reader selects for it, from which the language
   * and the directory chain are read back; and it lies within the content root.
   */
  lemma NamingRoundTrip(route: string, lang: string, files: set<string>, root: seq<string>)
    requires CleanRoute(route) && LangLetters(lang) && PlainSegments(root)
    ensures var rel := PageRelativePath(false, route, lang);
      && rel == route + "/" + IndexName(lang)
      && (rel in files ==> FindPage(route, lang, files) == Some(rel)) && ReadPlace(rel) == Some(rel) == WritePlace(rel)
      && Dir(rel) == route && LangFromName(rel) == lang
      && NormalizeChain(Dir(rel)) == Ok(SplitOn(route, '/')) && PlainSegments(SplitOn(route, '/'))
      && WithinRoot("/" + Join(root, '/'), JoinPath("/" + Join(root, '/'), rel))
  {
    PrintedPath(route, lang);
    IndexNameParts(lang);
    PlainPathKept(route);
    PlainWithinRoot(root, PageRelativePath(false, route, lang));
    PrintedSelected(route, lang, files);
    JoinConcat(SplitOn(route, '/'), [IndexName(lang)]);
    JoinSplit(route, '/');
  }

  lemma PrintedSelected(route: string, lang: string, files: set<string>)
    requires CleanRoute(route) && LangLetters(lang)
    ensures var rel := PageRelativePath(false, route, lang);
      && (rel in files ==> FindPage(route, lang, files) == Some(rel)) && LangFromName(rel) == lang
      && ReadPlace(rel) == Some(rel)
  {
    PrintedPath(route, lang);
    PlainPathKept(PageRelativePath(false, route, lang));
    IndexNameParts(lang);
    assert SplitOn(Base(PageRelativePath(false, route, lang)), '.') == ["index", lang, "md"];
  }

  /** Appending a file name without odd characters keeps the path plain. */
  lemma PathWithName(route: string, name: string)
    requires PlainPath(route) && PlainSegment(name) && !Contains(name, "\\") && !Contains(name, "..")
    ensures PlainPath(route + "/" + name)
  {
    var p := route + "/" + name;
    SplitLast(route, name);
    JoinedContains(route, name, "\\");
    JoinedContains(route, name, "..");
  }

  /**
   * The route is read back exactly, except when it starts like a root page's file name and ends in a dot:
   * there the dot is lost.
   */
  lemma RouteReadBack(route: string, lang: string)
    requires CleanRoute(route) && LangLetters(lang)
    ensures RouteForPage(PageRelativePath(false, route, lang)) == "/" + route
            <==> !(HasPrefix(route, "_index.") && HasSuffix(route, "."))
  {
    var name, rel := IndexName(lang), PageRelativePath(false, route, lang);
    IndexNameParts(lang);
    AppendSegment(route, name);
    PlainPathEnds(route);
    PrefixOfPath(route, name);
    PlainPathKept(route);
  }

  lemma PrefixOfPath(route: string, name: string)
    ensures HasPrefix(route + "/" + name, "_index.") <==> HasPrefix(route, "_index.")
    ensures route + "/" + name != "_index.md"
  {
    var p := route + "/" + name;
    assert p[|route|] == '/' && '/' !in "_index." && '/' !in "_index.md";
    assert |route| < 7 <= |p| ==> p[..7][|route|] == '/';
  }

  lemma RootFiles(l: string)
    ensures "_index." + l + ".md" == "_" + IndexName(l) && "_index.md" == "_" + "index.md"
  {
    assert "_index." == "_" + "index.";
    assert "_" + "index." + l + ".md" == "_" + ("index." + l + ".md");
  }

  lemma WordFileName(w: string)
    requires |w| > 2 && Trimmed(w) && forall i :: 0 <= i < |w| ==> w[i] != '/' && w[i] != '\\'
    requires forall i :: 0 < i < |w| ==> w[i] != '.' || w[i - 1] != '.'
    ensures FileName(w)
  {
    forall i | 0 <= i <= |w| ensures !OccursAt(w, "\\", i) && !OccursAt(w, "..", i) {
      assert i + 1 <= |w| ==> w[i..i + 1][0] == w[i];
      assert i + 2 <= |w| ==> w[i..i + 2][0] == w[i] && w[i..i + 2][1] == w[i + 1];
    }
  }

  /** The names of page files. */
  lemma PageFileNames(lang: string)
    requires LangLetters(lang)
    ensures FileName(IndexName(lang)) && FileName("_" + IndexName(lang))
  {
    var name := IndexName(lang);
    assert forall i :: 0 <= i < |name| ==> name[i] == '.' ==> i == 5 || i == 6 + |lang|;
    WordFileName(name);
    WordFileName("_" + name);
  }

  lemma BareFileNames()
    ensures FileName("index.md") && FileName("_index.md")
  {
    WordFileName("index.md");
    WordFileName("_index.md");
  }

  /** The root page, likewise. */
  lemma RootRoundTrip(lang: string, files: set<string>)
    requires LangLetters(lang)
    ensures var rel := PageRelativePath(true, "_index", lang);
      && (rel in files ==> FindPage("_index", lang, files) == Some(rel))
      && NormalizeRoute(MutationGetRoute(true, "_index")) == Ok(("_index", true))
      && ListedDirectly(rel) && ReadPlace(rel) == Some(rel) == WritePlace(rel)
  {
    RootFiles(lang);
    PageFileNames(lang);
    OwnPlace("_" + IndexName(lang));
    RootListed(lang);
    assert Trimmed("_index");
    TrimmedFixed("_index");
  }

  lemma RootListed(lang: string)
    ensures ListedDirectly("_index." + lang + ".md")
  {
    var rel := "_index." + lang + ".md";
    assert rel[..7] == "_index." && rel[|rel| - 3..] == ".md";
  }

  lemma WordBase(w: string)
    requires '/' !in w && w != ""
    ensures Base(w) == w
  {
    SplitWord(w, '/');
  }

  lemma WordDir(w: string)
    requires '/' !in w
    ensures Dir(w) == "."
  {
    SplitWord(w, '/');
    assert [w][..0] + [""] == [""];
    SplitWord("", '/');
  }

  /** Every file in the root directory itself belongs to the root page. */
  lemma RootReadBack(w: string)
    requires '/' !in w
    ensures RouteForPage(w) == "/"
  {
    WordDir(w);
    assert TrimSuffix(".", ".") == "" && "/" + "" == "/";
  }

  /** A page file without a language in its name. */
  lemma NoLanguage(w: string)
    requires '/' !in w && '.' !in w
    ensures LangFromName(w + ".md") == ""
  {
    WordBase(w + ".md");
    assert w + ".md" == w + ['.'] + "md";
    SplitFirst(w, "md", '.');
    SplitWord("md", '.');
  }
}
