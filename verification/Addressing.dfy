/** Which file a route and a language address: for a create, for the reader, and for a mutation. */
module Addressing {
  import opened Wrappers
  import opened Text
  import opened Paths
  import opened Places
  import opened Naming

  // ---------- Naming a page twice ----------

  /** The names a route normalizes to, the root page's apart, are empty or in clean form. */
  lemma NormalizedName(route: string)
    requires NormalizeRoute(route).Ok?
    ensures var (name, root) := NormalizeRoute(route).value;
            if root then name == "_index" else name == "" || Normal(name)
  {
    var s := TrimPrefix(TrimSpace(route), "/");
    var t := TrimSpace(s);
    if !NormalizeRoute(route).value.1 && t != "" { CleanIsNormal(t); }
  }

  lemma {:induction false} TrimAfterSlash(name: string)
    ensures TrimSpace("/" + name) == "/" + TrimRight(name)
  {
    if name != "" && IsSpace(name[|name| - 1]) {
      assert ("/" + name)[..|name|] == "/" + name[..|name| - 1];
      TrimAfterSlash(name[..|name| - 1]);
    }
  }

  /** The name the reader makes of a name a mutation has normalized already. */
  function Renamed(name: string): Result<(string, bool), NameError> {
    NormalizeRoute(MutationGetRoute(false, name))
  }

  lemma RenamedIs(name: string)
    ensures Renamed(name) ==
              var s := TrimRight(name);
              if s == "" || s == "_index" || s == "index" then Ok(("_index", true))
              else if Contains(s, "\\") || HasPrefix(s, "/") || Contains(s, "..") then Err(BadRoute)
              else match ValidateRelative(s) { case Err(_) => Err(BadRoute) case Ok(clean) => Ok((clean, false)) }
  {
    TrimAfterSlash(name);
    assert ("/" + TrimRight(name))[1..] == TrimRight(name);
  }

  /** A name that is no root page's is kept by the second normalization exactly if it has no space at its edges. */
  lemma NormalRenamed(name: string)
    requires Normal(name) && name != "index" && name != "_index"
    ensures Renamed(name) == Ok((name, false)) <==> Trimmed(name)
  {
    NormalStarts(name);
    RenamedIs(name);
    if Trimmed(name) {
      TrimmedFixed(name);
      NormalClean(name);
    } else {
      RenamedShorter(name);
    }
  }

  /** Otherwise what comes out is shorter, or an error. */
  lemma RenamedShorter(name: string)
    requires !Trimmed(name) && name != ""
    ensures Renamed(name).Ok? && !Renamed(name).value.1 ==> |Renamed(name).value.0| < |name|
  {
    RenamedIs(name);
    var s := TrimRight(name);
    EdgesShorter(name);
    EdgesShorter(s);
    TrimRightShape(name);
    var x := TrimSpace(s);
    if Renamed(name).Ok? && !Renamed(name).value.1 && x != "" { CleanIsNormal(x); }
  }

  lemma {:induction false} LastSpace(s: string)
    requires s != "" && IsSpace(s[|s| - 1])
    ensures TrimSpace(s[..|s| - 1]) == TrimSpace(s)
  {
    if IsSpace(s[0]) {
      if |s| > 1 {
        LastSpace(s[1..]);
        assert s[..|s| - 1][1..] == s[1..][..|s| - 2];
      }
    }
  }

  lemma {:induction false} TrimBoth(s: string)
    ensures TrimSpace(TrimRight(s)) == TrimSpace(s)
  {
    if s != "" && IsSpace(s[|s| - 1]) {
      TrimBoth(s[..|s| - 1]);
      LastSpace(s);
    }
  }

  const ROOT_NAMES := ["", "index", "_index"]

  /** The second normalization, in full: a name of the root page, or where the directory's own chain leads. */
  lemma RenamedDir(name: string)
    requires name == "" || Normal(name)
    ensures Renamed(name) ==
              if TrimRight(name) in ROOT_NAMES then Ok(("_index", true))
              else match ReadPlace(name) { case Some(d) => Ok((d, false)) case None => Err(BadRoute) }
  {
    RenamedIs(name);
    if name != "" {
      var s := TrimRight(name);
      TrimAllowed(name);
      TrimBoth(name);
      PlaceIs(name);
      PlaceIs(s);
      NormalStarts(name);
      TrimRightShape(name);
    }
  }

  /**
   * Reader and mutation agree on a name exactly if it has no space at its edges and is not empty, "index" or
   * "_index": those three the reader takes for the root page.
   */
  lemma SecondNaming(route: string)
    requires NormalizeRoute(route).Ok? && !NormalizeRoute(route).value.1
    ensures var name := NormalizeRoute(route).value.0;
      Renamed(name) == Ok((name, false)) <==> Trimmed(name) && name != "" && name != "index" && name != "_index"
  {
    var name := NormalizeRoute(route).value.0;
    NormalizedName(route);
    if name == "" || name == "index" || name == "_index" {
      RenamedIs(name);
      assert Trimmed(name);
      assert TrimRight(name) == name;
    } else {
      NormalRenamed(name);
    }
  }

  /** A trimmed name in clean form is what it normalizes to. */
  lemma NormalRoute(name: string)
    requires Normal(name) && Trimmed(name) && name != "index" && name != "_index"
    ensures NormalizeRoute(name) == Ok((name, false))
  {
    NormalStarts(name);
    TrimmedFixed(name);
    NormalClean(name);
  }

  // ---------- Which file a name addresses ----------

  /** The path the reader selects for a route and a language. */
  function Selects(route: string, lang: string, files: set<string>): Option<string> {
    match (NormalizeRoute(route), NormalizeOptionalLang(lang))
    case (Ok(named), Ok(l)) => FindPage(named.0, l, files)
    case _ => None
  }

  /** The path a mutation works on, looking it up through the reader. */
  function Addresses(route: string, lang: string, files: set<string>): Option<string> {
    match (NormalizeRoute(route), NormalizeOptionalLang(lang))
    case (Ok(named), Ok(l)) => Selects(MutationGetRoute(named.1, named.0), l, files)
    case _ => None
  }

  /** The path a create under these arguments prints. */
  function Creates(route: string, lang: string): Option<string> {
    match (NormalizeRoute(route), NormalizeCreateLang(lang))
    case (Ok(named), Ok(l)) => Some(PageRelativePath(named.1, named.0, l))
    case _ => None
  }

  function PlaceRead(rel: Option<string>): Option<string> {
    if rel.Some? then ReadPlace(rel.value) else None
  }

  function PlaceWritten(rel: Option<string>): Option<string> {
    if rel.Some? then WritePlace(rel.value) else None
  }

  function PlaceOpened(rel: Option<string>): Option<string> {
    if rel.Some? then OpenPlace(rel.value) else None
  }

  /** The file a create writes: not always the path it prints. */
  function CreatesAt(route: string, lang: string): Option<string> {
    PlaceWritten(Creates(route, lang))
  }

  /** A language is given; the name is not one the reader takes for the root page's, nor ends in white space. */
  predicate ReaderMeetsCreate(route: string, lang: string) {
    && NormalizeRoute(route).Ok? && TrimSpace(lang) != ""
    && var (name, root) := NormalizeRoute(route).value; root || (name != "_index" && TrimRight(name) == name)
  }

  /** What the second normalization makes of the name is not the root page, and is looked up as it is. */
  predicate LookupMeetsCreate(route: string, lang: string) {
    && NormalizeRoute(route).Ok? && TrimSpace(lang) != ""
    && var (name, root) := NormalizeRoute(route).value;
       root || (TrimRight(name) !in ROOT_NAMES && ReadPlace(name).Some? &&
                ReadPlace(name).value != "_index" && TrimLeft(ReadPlace(name).value) == ReadPlace(name).value)
  }

  /** Moreover it has no white space at its end. */
  predicate MutationsMeetCreate(route: string, lang: string) {
    && NormalizeRoute(route).Ok? && TrimSpace(lang) != ""
    && var (name, root) := NormalizeRoute(route).value;
       root || (TrimRight(name) !in ROOT_NAMES && ReadPlace(name).Some? &&
                ReadPlace(name).value != "_index" && Trimmed(ReadPlace(name).value))
  }

  // ---------- What stands before "index" ----------

  /** In the path that the reader selects for a name, and in the places that path leads to. */
  function ReaderStem(name: string): string {
    if name == "_index" then "_" else DirStem(name)
  }

  function LookStem(name: string): Option<string> {
    if name == "_index" then Some("_") else ReadStem(name)
  }

  function TouchStem(name: string): Option<string> {
    if name == "_index" then Some("_") else WriteStem(name)
  }

  /** In the place a create writes to. */
  function NewStem(root: bool, name: string): Option<string> {
    if root then Some("_") else WriteStem(name)
  }

  predicate ReaderName(name: string) {
    name == "" || name == "_index" || Normal(name)
  }

  predicate CreateName(root: bool, name: string) {
    if root then name == "_index" else name == "" || Normal(name)
  }

  predicate LangOk(l: string) {
    l == "" || LangLetters(l)
  }

  lemma IndexNameWord(l: string)
    requires LangOk(l)
    ensures '/' !in IndexName(l) && |IndexName(l)| > 2
  {
  }

  lemma StemJoin(name: string, w: string)
    requires (name == "" || Normal(name)) && '/' !in w && |w| > 2
    ensures JoinPath(name, w) == DirStem(name) + w
  {
    JoinNormal(name, w);
    assert [] + w == w;
  }

  /** The path a create prints, and the file it writes. */
  lemma PathStem(root: bool, name: string, l: string)
    requires CreateName(root, name) && LangOk(l)
    ensures PageRelativePath(root, name, l) == (if root then "_" else DirStem(name)) + IndexName(l)
    ensures WritePlace(PageRelativePath(root, name, l)) == At(NewStem(root, name), IndexName(l))
  {
    IndexNameWord(l);
    if root {
      RootFiles(l);
      WritePlaceIs("", "_" + IndexName(l));
      assert DirStem("") + ("_" + IndexName(l)) == "_" + IndexName(l);
      assert "" + ("_" + IndexName(l)) == "_" + IndexName(l);
    } else {
      StemJoin(name, IndexName(l));
      WritePlaceIs(name, IndexName(l));
    }
  }

  /** The places of a path that the reader selects. */
  lemma StemPlaces(name: string, w: string)
    requires ReaderName(name) && FileName(w) && FileName("_" + w)
    ensures ReadPlace(ReaderStem(name) + w) == At(LookStem(name), w)
    ensures WritePlace(ReaderStem(name) + w) == At(TouchStem(name), w)
  {
    if name == "_index" {
      OwnPlace("_" + w);
    } else {
      ReadPlaceIs(name, w);
      WritePlaceIs(name, w);
    }
  }

  lemma FindPageStem(name: string, l: string, files: set<string>)
    requires ReaderName(name) && LangOk(l)
    ensures FindPage(name, l, files) ==
              var s := ReaderStem(name);
              if l != "" && Holds(files, s + IndexName(l)) then Some(s + IndexName(l))
              else if Holds(files, s + "index.md") then Some(s + "index.md") else None
  {
    if name == "_index" {
      RootFiles(l);
    } else {
      IndexNameWord(l);
      StemJoin(name, IndexName(l));
      StemJoin(name, "index.md");
    }
  }

  /** A file with a language, even an empty one, is none without, and its stem can be read off it. */
  lemma FilesApart(s: string, t: string, l: string)
    requires LangOk(l)
    ensures s + IndexName(l) != t + "index.md"
    ensures s + IndexName(l) == t + IndexName(l) ==> s == t
  {
    var f, g := s + IndexName(l), t + "index.md";
    assert f[|f| - |l| - 4] == '.';
    assert g[|g| - 4] == 'x' && g[|g| - 6] == 'd' && g[|g| - 7] == 'n';
    var h := t + IndexName(l);
    assert f[..|f| - |IndexName(l)|] == s && h[..|h| - |IndexName(l)|] == t;
  }

  /** The one or the other path, with its places. */
  lemma Found(name: string, l: string, files: set<string>) returns (w: string)
    requires ReaderName(name) && LangOk(l) && FindPage(name, l, files).Some?
    ensures w == "index.md" || (w == IndexName(l) && l != "")
    ensures var rel := FindPage(name, l, files).value;
      && rel == ReaderStem(name) + w
      && ReadPlace(rel) == At(LookStem(name), w) && WritePlace(rel) == At(TouchStem(name), w)
  {
    FindPageStem(name, l, files);
    BareFileNames();
    RootFiles(l);
    if l != "" { PageFileNames(l); }
    var first := l != "" && Holds(files, ReaderStem(name) + IndexName(l));
    w := if first then IndexName(l) else "index.md";
    StemPlaces(name, w);
  }

  lemma FirstFound(name: string, l: string, files: set<string>)
    requires ReaderName(name) && LangLetters(l) && LookStem(name).Some?
    requires LookStem(name).value + IndexName(l) in files
    ensures FindPage(name, l, files) == Some(ReaderStem(name) + IndexName(l))
  {
    FindPageStem(name, l, files);
    PageFileNames(l);
    StemPlaces(name, IndexName(l));
  }

  /** A look-up with language `l'` comes to a file that was written under `l`, exactly in these cases. */
  lemma LooksAt(name: string, l: string, l': string, stem: string, files: set<string>)
    requires ReaderName(name) && LangOk(l) && (l' == "" || l' == l) && stem + IndexName(l) in files
    ensures PlaceRead(FindPage(name, l', files)) == Some(stem + IndexName(l)) <==>
              l' != "" && LookStem(name) == Some(stem)
  {
    if l' != "" && LookStem(name) == Some(stem) {
      FirstFound(name, l, files);
      PageFileNames(l);
      StemPlaces(name, IndexName(l));
    } else if FindPage(name, l', files).Some? {
      var w := Found(name, l', files);
      if LookStem(name).Some? { FilesApart(stem, LookStem(name).value, l); }
    }
  }

  /** And so does the write or the removal that follows the look-up. */
  lemma Touches(name: string, l: string, l': string, stem: string, files: set<string>)
    requires ReaderName(name) && LangOk(l) && (l' == "" || l' == l) && stem + IndexName(l) in files
    requires TouchStem(name) == Some(stem) ==> LookStem(name) == Some(stem)
    ensures PlaceWritten(FindPage(name, l', files)) == Some(stem + IndexName(l)) <==>
              l' != "" && TouchStem(name) == Some(stem)
  {
    if l' != "" && TouchStem(name) == Some(stem) {
      FirstFound(name, l, files);
      PageFileNames(l);
      StemPlaces(name, IndexName(l));
    } else if FindPage(name, l', files).Some? {
      var w := Found(name, l', files);
      if TouchStem(name).Some? { FilesApart(stem, TouchStem(name).value, l); }
    }
  }

  // ---------- What meets a create ----------

  lemma LangTwice(lang: string)
    requires NormalizeCreateLang(lang).Ok?
    ensures LangOk(NormalizeCreateLang(lang).value)
    ensures NormalizeOptionalLang(lang) == Ok(if TrimSpace(lang) == "" then "" else NormalizeCreateLang(lang).value)
  {
    assert LangLetters("fr");
  }

  lemma NewStemIs(route: string, lang: string)
    requires CreatesAt(route, lang).Some?
    ensures NormalizeRoute(route).Ok? && NormalizeCreateLang(lang).Ok?
    ensures var (name, root) := NormalizeRoute(route).value; var l := NormalizeCreateLang(lang).value;
      && CreateName(root, name) && ReaderName(name) && LangOk(l) && NewStem(root, name).Some?
      && CreatesAt(route, lang).value == NewStem(root, name).value + IndexName(l)
  {
    var (name, root) := NormalizeRoute(route).value;
    LangTwice(lang);
    NormalizedName(route);
    PathStem(root, name, NormalizeCreateLang(lang).value);
  }

  /** The path a create prints is the file it writes, exactly if the name has no white space at its edges. */
  lemma PrintedIsWritten(route: string, lang: string)
    requires CreatesAt(route, lang).Some?
    ensures CreatesAt(route, lang) == Creates(route, lang) <==> Trimmed(NormalizeRoute(route).value.0)
  {
    var (name, root) := NormalizeRoute(route).value;
    var l := NormalizeCreateLang(lang).value;
    NewStemIs(route, lang);
    PathStem(root, name, l);
    if root {
      assert Trimmed("_index");
    } else {
      WritesItself(name);
      FilesApart(DirStem(name), NewStem(root, name).value, l);
    }
  }

  /** The reader comes to what a create wrote under the same arguments exactly if it meets it. */
  lemma ReaderFindsCreated(route: string, lang: string, files: set<string>)
    requires CreatesAt(route, lang).Some? && CreatesAt(route, lang).value in files
    ensures PlaceRead(Selects(route, lang, files)) == CreatesAt(route, lang) <==> ReaderMeetsCreate(route, lang)
  {
    var (name, root) := NormalizeRoute(route).value;
    var l := NormalizeCreateLang(lang).value;
    NewStemIs(route, lang);
    LangTwice(lang);
    LooksAt(name, l, if TrimSpace(lang) == "" then "" else l, NewStem(root, name).value, files);
    if !root {
      StemsAgree(name);
      if name == "_index" { DirStemApart(ReadPlace(name).value, ""); }
    }
  }

  /** What the second normalization makes of a name, and how it compares with the place a create wrote to. */
  lemma SecondStem(name: string)
    requires (name == "" || Normal(name)) && ReadPlace(name).Some?
    ensures Renamed(name).Ok? && ReaderName(Renamed(name).value.0)
    ensures var again, d := Renamed(name).value.0, ReadPlace(name).value;
      && (LookStem(again) == WriteStem(name) <==> TrimRight(name) !in ROOT_NAMES && d != "_index" && TrimLeft(d) == d)
      && (TouchStem(again) == WriteStem(name) <==> TrimRight(name) !in ROOT_NAMES && d != "_index" && Trimmed(d))
  {
    var d := ReadPlace(name).value;
    RenamedDir(name);
    PlaceNormal(name);
    DirStemApart(d, "");
    ReadsItself(d);
    WritesItself(d);
  }

  lemma PlaceNormal(name: string)
    requires (name == "" || Normal(name)) && ReadPlace(name).Some?
    ensures ReadPlace(name).value == "" || Normal(ReadPlace(name).value)
  {
    if name != "" {
      TrimAllowed(name);
      PlaceIs(name);
      if TrimSpace(name) != "" { CleanDirNormal(TrimSpace(name)); }
    } else {
      SplitWord("", '/');
    }
  }

  lemma TrimmedLeft(d: string)
    requires Trimmed(d)
    ensures TrimLeft(d) == d
  {
  }

  /** The path a mutation works on, by the name of the second normalization. */
  lemma AddressesBy(route: string, lang: string, files: set<string>)
    requires NormalizeRoute(route).Ok? && NormalizeCreateLang(lang).Ok?
    ensures var (name, root) := NormalizeRoute(route).value;
      var l := if TrimSpace(lang) == "" then "" else NormalizeCreateLang(lang).value;
      Addresses(route, lang, files) ==
        if root then FindPage("_index", l, files)
        else if Renamed(name).Ok? then FindPage(Renamed(name).value.0, l, files) else None
  {
    var (name, root) := NormalizeRoute(route).value;
    var l := if TrimSpace(lang) == "" then "" else NormalizeCreateLang(lang).value;
    LangTwice(lang);
    TrimmedFixed(l);
    NormalizedName(route);
    assert Trimmed("_index");
    TrimmedFixed("_index");
  }

  /** The look-up of a mutation comes to what a create wrote under the same arguments exactly if it meets it. */
  lemma MutationFindsCreated(route: string, lang: string, files: set<string>)
    requires CreatesAt(route, lang).Some? && CreatesAt(route, lang).value in files
    ensures PlaceRead(Addresses(route, lang, files)) == CreatesAt(route, lang) <==> LookupMeetsCreate(route, lang)
  {
    var (name, root) := NormalizeRoute(route).value;
    var l := NormalizeCreateLang(lang).value;
    var l' := if TrimSpace(lang) == "" then "" else l;
    NewStemIs(route, lang);
    LangTwice(lang);
    AddressesBy(route, lang, files);
    if root {
      LooksAt("_index", l, l', "_", files);
    } else {
      SecondStem(name);
      LooksAt(Renamed(name).value.0, l, l', NewStem(root, name).value, files);
    }
  }

  /** What the mutation then writes or removes is that file exactly under the stronger condition. */
  lemma MutationTouchesCreated(route: string, lang: string, files: set<string>)
    requires CreatesAt(route, lang).Some? && CreatesAt(route, lang).value in files
    ensures PlaceWritten(Addresses(route, lang, files)) == CreatesAt(route, lang) <==> MutationsMeetCreate(route, lang)
  {
    var (name, root) := NormalizeRoute(route).value;
    var l := NormalizeCreateLang(lang).value;
    var l' := if TrimSpace(lang) == "" then "" else l;
    NewStemIs(route, lang);
    LangTwice(lang);
    AddressesBy(route, lang, files);
    if root {
      Touches("_index", l, l', "_", files);
    } else {
      SecondStem(name);
      if Trimmed(ReadPlace(name).value) { TrimmedLeft(ReadPlace(name).value); }
      Touches(Renamed(name).value.0, l, l', NewStem(root, name).value, files);
    }
  }

  // ---------- One path, three places ----------

  /** The reader's name for the page does not end in white space. */
  predicate Settled(route: string) {
    && NormalizeRoute(route).Ok?
    && var (name, root) := NormalizeRoute(route).value;
       root || (Renamed(name).Ok? && (Renamed(name).value.0 == "_index"
                                      || TrimRight(Renamed(name).value.0) == Renamed(name).value.0))
  }

  /** A directory that can be looked up can be written to. */
  lemma ReadThenWrite(n: string)
    requires (n == "" || Normal(n)) && ReadStem(n).Some?
    ensures WriteStem(n).Some?
  {
    if n != "" {
      PlaceIs(n);
      TrimSides(n);
    } else {
      assert TrimSpace("") == "";
    }
  }

  /** The name the reader goes by in the look-up of a mutation. */
  function ReadersName(route: string): Result<(string, bool), NameError> {
    match NormalizeRoute(route)
    case Err(e) => Err(e)
    case Ok(named) => NormalizeRoute(MutationGetRoute(named.1, named.0))
  }

  lemma ReadersNameOk(route: string)
    requires ReadersName(route).Ok?
    ensures ReaderName(ReadersName(route).value.0)
    ensures NormalizeRoute(route).value.1 ==> ReadersName(route).value.0 == "_index"
    ensures !NormalizeRoute(route).value.1 ==> ReadersName(route) == Renamed(NormalizeRoute(route).value.0)
  {
    NormalizedName(route);
    var named := NormalizeRoute(route).value;
    NormalizedName(MutationGetRoute(named.1, named.0));
    assert Trimmed("_index");
    TrimmedFixed("_index");
  }

  lemma AddressesByReader(route: string, lang: string, files: set<string>)
    requires NormalizeRoute(route).Ok? && NormalizeOptionalLang(lang).Ok?
    ensures var l := NormalizeOptionalLang(lang).value;
      Addresses(route, lang, files) ==
        if ReadersName(route).Ok? then FindPage(ReadersName(route).value.0, l, files) else None
  {
    TrimSpaceTrims(lang);
  }

  /** A mutation writes to the file it has read, and removes it, exactly if the name is settled. */
  lemma ReadsWhatItTouches(route: string, lang: string, files: set<string>)
    requires Addresses(route, lang, files).Some?
    ensures PlaceWritten(Addresses(route, lang, files)) == PlaceRead(Addresses(route, lang, files)) <==> Settled(route)
  {
    var l := NormalizeOptionalLang(lang).value;
    AddressesByReader(route, lang, files);
    ReadersNameOk(route);
    var name := ReadersName(route).value.0;
    var w := Found(name, l, files);
    if name != "_index" {
      ReadThenWrite(name);
      StemsAgree(name);
      EndsApart(ReadStem(name).value, WriteStem(name).value, w);
    }
  }

  /** Changing the page it has selected does not make a look-up select another one. */
  lemma SelectedAgain(name: string, l: string, files: set<string>, after: set<string>, place: string)
    requires ReaderName(name) && LangOk(l) && FindPage(name, l, files).Some? && FindPage(name, l, after).Some?
    requires WritePlace(FindPage(name, l, files).value) == Some(place) && after == files + {place}
    ensures FindPage(name, l, after) == FindPage(name, l, files)
  {
    var w := Found(name, l, files);
    var v := Found(name, l, after);
    if w != v {
      BareFileNames();
      RootFiles(l);
      PageFileNames(l);
      FindPageStem(name, l, files);
      FindPageStem(name, l, after);
      StemPlaces(name, IndexName(l));
      FilesApart(LookStem(name).value, TouchStem(name).value, l);
    }
  }

  lemma EndsApart(s: string, t: string, w: string)
    ensures s + w == t + w <==> s == t
  {
    assert (s + w)[..|s + w| - |w|] == s && (t + w)[..|t + w| - |w|] == t;
  }

  /** A path that is looked up as it stands is opened where it is written. */
  lemma OpensItself(rel: string)
    requires ReadPlace(rel) == Some(rel)
    ensures OpenPlace(rel) == WritePlace(rel)
  {
  }

  /** Where a mutation meets a create, it opens that file too. */
  lemma MutationOpensCreated(route: string, lang: string, files: set<string>)
    requires CreatesAt(route, lang).Some? && CreatesAt(route, lang).value in files && MutationsMeetCreate(route, lang)
    ensures var rel := Addresses(route, lang, files);
      PlaceRead(rel) == PlaceWritten(rel) == PlaceOpened(rel) == CreatesAt(route, lang) == rel
  {
    var (name, root) := NormalizeRoute(route).value;
    var l := NormalizeCreateLang(lang).value;
    NewStemIs(route, lang);
    LangTwice(lang);
    AddressesBy(route, lang, files);
    MutationTouchesCreated(route, lang, files);
    PageFileNames(l);
    if root {
      FirstFound("_index", l, files);
      StemPlaces("_index", IndexName(l));
    } else {
      var d := ReadPlace(name).value;
      RenamedDir(name);
      PlaceNormal(name);
      TrimmedLeft(d);
      ReadsItself(d);
      FirstFound(d, l, files);
      StemPlaces(d, IndexName(l));
    }
    OpensItself(Addresses(route, lang, files).value);
  }
}
