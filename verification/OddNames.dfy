/** Names for which a page is printed, read, opened and written in different places. */
module OddNames {
  import opened Wrappers
  import opened Text
  import opened Paths
  import opened Places
  import opened Naming
  import opened Addressing

  // ---------- Names with white space inside ----------

  lemma OddAllowed(s: string)
    requires forall i :: 0 <= i < |s| ==> s[i] != '\\'
    requires forall i :: 0 < i < |s| ==> s[i] != '.' || s[i - 1] != '.'
    ensures Allowed(s)
  {
    forall i | 0 <= i <= |s| ensures !OccursAt(s, "\\", i) && !OccursAt(s, "..", i) {
      assert i + 1 <= |s| ==> s[i..i + 1][0] == s[i];
      assert i + 2 <= |s| ==> s[i..i + 2][0] == s[i] && s[i..i + 2][1] == s[i + 1];
    }
  }

  lemma OddChars(s: string)
    requires Allowed(s)
    ensures forall i :: 0 <= i < |s| ==> s[i] != '\\'
    ensures forall i :: 0 < i < |s| ==> s[i] != '.' || s[i - 1] != '.'
  {
    forall i | 0 <= i < |s| ensures s[i] != '\\' {
      assert !OccursAt(s, "\\", i);
      assert s[i..i + 1] == [s[i]];
    }
    forall i | 0 < i < |s| ensures s[i] != '.' || s[i - 1] != '.' {
      assert !OccursAt(s, "..", i - 1);
      assert s[i - 1..i + 1] == [s[i - 1], s[i]];
    }
  }

  lemma SpaceAfter(n: string)
    requires Normal(n)
    ensures Normal(n + " ")
  {
    SplitAppend(n, " ", '/');
    var p := SplitOn(n, '/');
    assert p[|p| - 1] in p && forall x :: x in p[..|p| - 1] ==> x in p;
    OddChars(n);
    OddAllowed(n + " ");
    assert (p[|p| - 1] + " ")[|p[|p| - 1]|] == ' ';
  }

  lemma SpaceBefore(n: string)
    requires Normal(n)
    ensures Normal(" " + n)
  {
    SplitCons(' ', n, '/');
    assert [' '] + n == " " + n;
    var p := SplitOn(n, '/');
    assert forall x :: x in p[1..] ==> x in p;
    OddChars(n);
    OddAllowed(" " + n);
    assert ([' '] + p[0])[0] == ' ';
  }

  /** A segment before and one after. */
  lemma Longer(n: string, w: string)
    requires Normal(n) && '/' !in w && w != "" && w != "." && w != ".." && Allowed(w)
    ensures Normal(n + "/" + w) && Normal(w + "/" + n)
  {
    SplitLast(n, w);
    SplitFirst(w, n, '/');
    assert w + ['/'] + n == w + "/" + n;
    JoinedContains(n, w, "\\");
    JoinedContains(n, w, "..");
    JoinedContains(w, n, "\\");
    JoinedContains(w, n, "..");
  }

  /** A dot before a name, and a dot or nothing after it, are dropped. */
  lemma DotDropped(n: string, t: string)
    requires Normal(n) && (t == "" || t == ".")
    ensures Allowed("./" + n) && CleanDir("./" + n) == n
    ensures Allowed(n + "/" + t) && CleanDir(n + "/" + t) == n
  {
    OddAllowed(".");
    OddAllowed(t);
    JoinedContains(".", n, "\\");
    JoinedContains(".", n, "..");
    JoinedContains(n, t, "\\");
    JoinedContains(n, t, "..");
    assert "." + "/" + n == "./" + n;
    DotCleaned(n);
    TailCleaned(n, t);
    NormalStarts(n);
  }

  lemma DotCleaned(n: string)
    requires Normal(n)
    ensures Clean("./" + n) == n
  {
    var p := SplitOn(n, '/');
    SplitFirst(".", n, '/');
    assert "." + ['/'] + n == "./" + n;
    CleanKept(["."] + p);
    KeptAfterDot(p);
    JoinSplit(n, '/');
    NormalStarts(n);
  }

  lemma {:induction false} KeptAfterDot(p: seq<string>)
    requires "" !in p && "." !in p
    ensures Kept(["."] + p) == p
  {
    if p == [] {
      assert ["."] + p == ["."] && ["."][..0] == [];
    } else {
      var init, last := p[..|p| - 1], p[|p| - 1];
      KeptAfterDot(init);
      KeptLast(["."] + init, last);
      assert ["."] + p == ["."] + init + [last] && p == init + [last];
    }
  }

  lemma TailCleaned(n: string, t: string)
    requires Normal(n) && (t == "" || t == ".")
    ensures Clean(n + "/" + t) == n
  {
    var p := SplitOn(n, '/');
    SplitLast(n, t);
    CleanKept(p + [t]);
    KeptLast(p, t);
    AllKept(p);
    JoinSplit(n, '/');
    NormalStarts(n);
  }

  /** Routes that keep the white space of a name from being trimmed. */
  lemma GuardedRoute(n: string, t: string)
    requires Normal(n) && (t == "" || t == ".")
    ensures !IsSpace(n[0]) ==> NormalizeRoute(n + "/" + t) == Ok((n, false))
    ensures !IsSpace(n[|n| - 1]) ==> NormalizeRoute("./" + n) == Ok((n, false))
  {
    DotDropped(n, t);
    NormalStarts(n);
    if !IsSpace(n[0]) { SlashedRoute(n + "/" + t, |n|, n); }
    if !IsSpace(n[|n| - 1]) { SlashedRoute("./" + n, 1, n); }
  }

  lemma SlashedRoute(s: string, i: nat, n: string)
    requires 0 < i < |s| && s[i] == '/' && s[0] != '/' && Trimmed(s) && Allowed(s) && CleanDir(s) == n && n != ""
    ensures NormalizeRoute(s) == Ok((n, false))
  {
    TrimmedFixed(s);
    assert '/' !in "" && '/' !in "_index" && '/' !in "index" && '/' in s;
  }

  lemma InFrench()
    ensures NormalizeOptionalLang("fr") == Ok("fr") && NormalizeCreateLang("fr") == Ok("fr") && LangLetters("fr")
    ensures TrimSpace("fr") == "fr"
  {
    assert Trimmed("fr");
    TrimmedFixed("fr");
  }

  lemma SpacedStems(a: string)
    requires Normal(a) && Trimmed(a)
    ensures Normal(a + " ") && TrimLeft(a + " ") == a + " " && TrimRight(a + " ") == a && ReadPlace(a + " ") == Some(a)
    ensures ReadStem(a + " ") == Some(a + " /") && WriteStem(a + " ") == Some(a + "/")
  {
    NormalStarts(a);
    SpaceAfter(a);
    assert (a + " ")[..|a|] == a && a + " " + "/" == a + " /";
    PlaceIs(a + " ");
    NormalClean(a + " ");
    NormalClean(a);
  }

  /** A create under such a route writes one path and prints another, and the reader looks under the printed one. */
  lemma PrintedElsewhere(a: string, files: set<string>)
    requires Normal(a) && Trimmed(a)
    ensures Creates(a + " /", "fr") == Some(a + " /" + IndexName("fr"))
    ensures CreatesAt(a + " /", "fr") == Some(a + "/" + IndexName("fr"))
    ensures a + " /" + IndexName("fr") !in files && a + " /" + "index.md" !in files ==>
              Selects(a + " /", "fr", files) == None
  {
    var n := a + " ";
    NormalStarts(a);
    SpacedStems(a);
    InFrench();
    GuardedRoute(n, "");
    assert n + "/" + "" == a + " /" && n + "/" == a + " /";
    PathStem(false, n, "fr");
    if Selects(a + " /", "fr", files).Some? {
      assert n != "_index" by { assert n[|a|] == ' ' && "_index"[5] != ' '; }
      var w := Found(n, "fr", files);
    }
  }

  /** A mutation of such a route reads one page, and opens and changes another. */
  lemma OtherPageTouched(a: string, files: set<string>)
    requires Normal(a) && Trimmed(a) && a + " /" + IndexName("fr") in files
    ensures var rel := Addresses(a + " / /.", "fr", files);
      && PlaceRead(rel) == Some(a + " /" + IndexName("fr"))
      && PlaceWritten(rel) == PlaceOpened(rel) == Some(a + "/" + IndexName("fr"))
    ensures !Settled(a + " / /.")
  {
    TwiceSpaced(a);
    SpacedStems(a);
    InFrench();
    AddressesByReader(a + " / /.", "fr", files);
    SpacedPlaces(a, files);
  }

  /** The reader's name for it is what precedes the first slash. */
  lemma TwiceSpaced(a: string)
    requires Normal(a) && Trimmed(a)
    ensures NormalizeRoute(a + " / /.") == Ok((a + " / ", false)) && ReadersName(a + " / /.") == Ok((a + " ", false))
  {
    var n := a + " / ";
    NormalStarts(a);
    SpaceAfter(a);
    OddAllowed(" ");
    Longer(a + " ", " ");
    assert a + " " + "/" + " " == n && n + "/" + "." == a + " / /.";
    GuardedRoute(n, ".");
    RenamedDir(n);
    TrimmedTail(a);
    PlaceIs(n);
    DotDropped(a + " ", "");
    assert a + " " + "/" + "" == a + " /";
  }

  lemma TrimmedTail(a: string)
    requires a != "" && !IsSpace(a[0])
    ensures TrimRight(a + " / ") == a + " /" == TrimSpace(a + " / ") && a + " /" !in ROOT_NAMES
    ensures !HasPrefix(a + " /", "/") || a[0] == '/'
  {
    var n := a + " / ";
    assert n[..|n| - 1] == a + " /" && (a + " /")[|a| + 1] == '/';
    assert '/' !in "" && '/' !in "_index" && '/' !in "index" && '/' in a + " /";
  }

  lemma SpacedPlaces(a: string, files: set<string>)
    requires Normal(a) && Trimmed(a) && a + " /" + IndexName("fr") in files
    ensures var rel := FindPage(a + " ", "fr", files);
      && PlaceRead(rel) == Some(a + " /" + IndexName("fr"))
      && PlaceWritten(rel) == PlaceOpened(rel) == Some(a + "/" + IndexName("fr"))
  {
    var n := a + " ";
    SpacedStems(a);
    InFrench();
    assert n != "_index" by { assert n[|a|] == ' ' && "_index"[5] != ' '; }
    FirstFound(n, "fr", files);
    PageFileNames("fr");
    StemPlaces(n, IndexName("fr"));
    assert n + "/" == a + " /";
    OpensItself(a + " /" + IndexName("fr"));
  }

  /** A name with a space, a dot and a slash before it. */
  function Dotted(y: string): string {
    " " + ("./" + y)
  }

  /** One space before a word is all that is trimmed away. */
  lemma SpaceTrimmed(t: string)
    requires t != "" && !IsSpace(t[0]) && !IsSpace(t[|t| - 1])
    ensures TrimLeft(" " + t) == TrimSpace(" " + t) == t && TrimRight(" " + t) == " " + t
  {
    assert (" " + t)[1..] == t;
  }

  lemma DottedTrimmed(y: string)
    requires y != "" && !IsSpace(y[|y| - 1])
    ensures TrimLeft(Dotted(y)) == TrimSpace(Dotted(y)) == "./" + y && TrimRight(Dotted(y)) == Dotted(y)
    ensures Dotted(y) !in ROOT_NAMES && |Dotted(y)| > 0 && Dotted(y)[|Dotted(y)| - 1] == y[|y| - 1]
  {
    SpaceTrimmed("./" + y);
    assert Dotted(y)[0] == ' ';
  }

  lemma DottedNormal(y: string)
    requires Normal(y)
    ensures Normal(Dotted(y))
  {
    OddAllowed(" .");
    Longer(y, " .");
    assert " ." + "/" + y == Dotted(y);
  }

  /** Both normalizations take the dot away again. */
  lemma DottedName(y: string)
    requires Normal(y) && !IsSpace(y[|y| - 1])
    ensures Normal(Dotted(y)) && ReadPlace(Dotted(y)) == Some(y)
    ensures TrimLeft(Dotted(y)) == "./" + y && CleanDir("./" + y) == y
    ensures Renamed(Dotted(y)) == Ok((y, false)) && NormalizeRoute("./" + y) == Ok((y, false))
  {
    DottedNormal(y);
    DottedTrimmed(y);
    DotDropped(y, "");
    PlaceIs(Dotted(y));
    RenamedDir(Dotted(y));
    GuardedRoute(y, "");
  }

  /** As in "./ ./ ./ a". */
  function DottedRoute(a: string): string {
    "./" + Dotted(Dotted(" " + a))
  }

  /** A delete of such a route removes the page it has read, and keeps a copy of another. */
  lemma OtherPageOpened(a: string, files: set<string>)
    requires Normal(a) && Trimmed(a) && " " + a + "/" + IndexName("fr") in files
    ensures var rel := Addresses(DottedRoute(a), "fr", files);
      && PlaceRead(rel) == PlaceWritten(rel) == Some(" " + a + "/" + IndexName("fr"))
      && PlaceOpened(rel) == Some(a + "/" + IndexName("fr"))
  {
    DottedNames(a);
    InFrench();
    AddressesByReader(DottedRoute(a), "fr", files);
    DottedPlaces(a, files);
  }

  lemma DottedNames(a: string)
    requires Normal(a) && Trimmed(a)
    ensures Normal(" " + a) && Normal(Dotted(" " + a))
    ensures ReadersName(DottedRoute(a)) == Ok((Dotted(" " + a), false))
  {
    NormalStarts(a);
    SpaceBefore(a);
    DottedName(" " + a);
    DottedTrimmed(" " + a);
    DottedName(Dotted(" " + a));
    DottedTrimmed(Dotted(" " + a));
    DottedName(Dotted(Dotted(" " + a)));
  }

  lemma DottedPlaces(a: string, files: set<string>)
    requires Normal(a) && Trimmed(a) && Normal(" " + a) && Normal(Dotted(" " + a))
    requires " " + a + "/" + IndexName("fr") in files
    ensures var rel := FindPage(Dotted(" " + a), "fr", files);
      && PlaceRead(rel) == PlaceWritten(rel) == Some(" " + a + "/" + IndexName("fr"))
      && PlaceOpened(rel) == Some(a + "/" + IndexName("fr"))
  {
    var n, w := Dotted(" " + a), IndexName("fr");
    DottedStems(a);
    InFrench();
    NormalStarts(a);
    DottedTrimmed(" " + a);
    FirstFound(n, "fr", files);
    PageFileNames("fr");
    StemPlaces(n, w);
    WritePlaceIs(" " + a, w);
    assert " " + a + "/" + w == DirStem(" " + a) + w;
  }

  lemma DottedStems(a: string)
    requires Normal(a) && Trimmed(a) && Normal(" " + a)
    ensures ReadStem(Dotted(" " + a)) == WriteStem(Dotted(" " + a)) == Some(" " + a + "/")
    ensures WriteStem(" " + a) == Some(a + "/")
  {
    NormalStarts(a);
    DottedName(" " + a);
    SpaceTrimmed(a);
    PlaceIs(" " + a);
    NormalClean(a);
  }

  // ---------- The root page and the default language ----------

  lemma IndexWord()
    ensures Normal("index") && !IsSpace("index"[0]) && !IsSpace("index"[4]) && TrimRight("index") == "index"
    ensures "index" in ROOT_NAMES
  {
    SplitWord("index", '/');
    OddAllowed("index");
  }

  /** Such a route normalizes to "index", which the reader in turn takes for the root page. */
  lemma DotSlashIndex()
    ensures NormalizeRoute("./index") == Ok(("index", false)) && ReadersName("./index") == Ok(("_index", true))
    ensures !LookupMeetsCreate("./index", "fr")
  {
    IndexWord();
    GuardedRoute("index", "");
    assert "./" + "index" == "./index";
    RenamedDir("index");
  }

  lemma RootFound(files: set<string>)
    requires "_" + IndexName("fr") in files
    ensures var rel := FindPage("_index", "fr", files);
      PlaceRead(rel) == PlaceWritten(rel) == PlaceOpened(rel) == rel == Some("_" + IndexName("fr"))
  {
    InFrench();
    PageFileNames("fr");
    FirstFound("_index", "fr", files);
    StemPlaces("_index", IndexName("fr"));
    OpensItself("_" + IndexName("fr"));
  }

  lemma FrenchRoot()
    ensures "_" + IndexName("fr") == "_index.fr.md"
  {
    assert IndexName("fr") == "index.fr.md";
  }

  lemma DotSlashGiven()
    ensures TrimSpace("./index") == "./index"
  {
    assert Trimmed("./index");
    TrimmedFixed("./index");
  }

  /** So a mutation of it works on the root page. */
  lemma DotSlashIndexIsRoot(files: set<string>)
    requires "_index.fr.md" in files
    ensures var rel := Addresses("./index", "fr", files);
      PlaceRead(rel) == PlaceWritten(rel) == PlaceOpened(rel) == rel == Some("_index.fr.md")
  {
    DotSlashIndex();
    InFrench();
    FrenchRoot();
    AddressesByReader("./index", "fr", files);
    RootFound(files);
  }

  /** The page without a language, next to the one a create under this route writes. */
  function Sibling(route: string): Option<string> {
    match NormalizeRoute(route)
    case Ok(named) => At(NewStem(named.1, named.0), "index.md")
    case Err(_) => None
  }

  /** Given no language, a create writes the French page, while a mutation works on the page without a language. */
  lemma DefaultLanguageApart(route: string, files: set<string>)
    requires MutationsMeetCreate(route, "fr") && Sibling(route).Some? && Sibling(route).value in files
    ensures CreatesAt(route, "") == CreatesAt(route, "fr") != Sibling(route) && CreatesAt(route, "").Some?
    ensures var rel := Addresses(route, "", files);
      PlaceRead(rel) == PlaceWritten(rel) == PlaceOpened(rel) == Sibling(route)
  {
    var (name, root) := NormalizeRoute(route).value;
    InFrench();
    NormalizedName(route);
    PathStem(root, name, "fr");
    FilesApart(NewStem(root, name).value, NewStem(root, name).value, "fr");
    AddressesBy(route, "", files);
    BareFileNames();
    RootFiles("fr");
    if root {
      NamelessFound("_index", "_", files);
    } else {
      var d := ReadPlace(name).value;
      RenamedDir(name);
      PlaceNormal(name);
      TrimmedLeft(d);
      ReadsItself(d);
      WritesItself(d);
      NamelessFound(d, DirStem(d), files);
    }
  }

  lemma NamelessFound(name: string, stem: string, files: set<string>)
    requires ReaderName(name) && ReaderStem(name) == stem && LookStem(name) == TouchStem(name) == Some(stem)
    requires stem + "index.md" in files
    ensures var rel := FindPage(name, "", files);
      PlaceRead(rel) == PlaceWritten(rel) == PlaceOpened(rel) == Some(stem + "index.md")
  {
    BareFileNames();
    RootFiles("fr");
    FindPageStem(name, "", files);
    StemPlaces(name, "index.md");
    OpensItself(stem + "index.md");
  }
}
