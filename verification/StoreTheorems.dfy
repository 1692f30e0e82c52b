/** What one call of the page store does to the page it writes. */
module StoreTheorems {
  import opened Wrappers
  import opened Text
  import opened Paths
  import opened Places
  import opened Naming
  import opened Addressing
  import opened OddNames
  import opened Merge
  import opened Validation
  import opened Render
  import opened Reading
  import opened Store

  // ---------- Reading back what was written ----------

  /** The YAML of these fields ends in a newline, holds no dashes, and decodes to them, lists being general ones. */
  predicate Faithful(c: Codec, fm: Fields) {
    && HasSuffix(c.marshal(fm), "\n") && !Contains(c.marshal(fm), DASHES)
    && c.parse("\n" + c.marshal(fm)) == FieldsAsRead(fm)
  }

  lemma ReadBack(c: Codec, page: Page)
    requires Faithful(c, page.fm)
    ensures View(c, RawOf(c, page)) == Page(FieldsAsRead(page.fm), TrimSpace(page.content))
  {
    RenderThenSplit(c.marshal(page.fm), page.content);
    FieldsAsReadTwice(page.fm);
  }

  /** A page as parsed is as the decoder makes it. */
  lemma ViewedAsRead(c: Codec, raw: string)
    ensures FieldsAsRead(View(c, raw).fm) == View(c, raw).fm
  {
    if Split(raw).yaml.Some? { FieldsAsReadTwice(c.parse(Split(raw).yaml.value)); }
  }

  /** A request whose frontmatter has dashes in a value. */
  const DASHED := Create("a", "fr", "t", "c", None, None, Dict(map["author" := Str("a---b")]))

  /** What it writes, and how the encoder prints that. */
  const DASHED_FIELDS :=
    map["author" := Str("a---b"), "date" := Str("2024"), "lastmod" := Str("2024"), "title" := Str("t")]
  const DASHED_YAML := "author: a---b\n" + "date: \"2024\"\nlastmod: \"2024\"\n" + "title: t\n"

  /** The page is cut at the dashes: of its four fields only a piece of the first is read back. */
  lemma DashesLoseTheDate(c: Codec, files: Files, limit: nat)
    requires c.jsonBytes(map["author" := Str("a---b")]) <= MAX_BYTES && c.textBytes(Rendered(DASHED_YAML, "c")) <= limit
    requires c.marshal(DASHED_FIELDS) == DASHED_YAML && c.parse("\nauthor: a") == map["author" := Str("a")]
    requires "a/index.fr.md" !in files
    ensures Outcome(c, files, limit, DASHED, "2024", FINE) ==
              Ok(("a/index.fr.md", files["a/index.fr.md" := Rendered(DASHED_YAML, "c")]))
    ensures View(c, Rendered(DASHED_YAML, "c")).fm == map["author" := Str("a")]
  {
    DashedWrite(c);
    FrenchPath();
    CreateDone(c, files, limit, DASHED, "2024", "a/index.fr.md");
    DashedRead(c);
  }

  /** A create that comes to writing, with room for the page. */
  lemma CreateDone(c: Codec, files: Files, limit: nat, r: Request, now: string, place: string)
    requires r.Create? && CreateWrite(c, r, now).Ok?
    requires var w := CreateWrite(c, r, now).value;
      WritePlace(w.rel) == Some(place) && place !in files && c.textBytes(RawOf(c, w.page)) <= limit
    ensures var w := CreateWrite(c, r, now).value;
      Outcome(c, files, limit, r, now, FINE) == Ok((w.rel, files[place := RawOf(c, w.page)]))
  {
  }

  lemma DashedRead(c: Codec)
    requires c.parse("\nauthor: a") == map["author" := Str("a")]
    ensures View(c, Rendered(DASHED_YAML, "c")).fm == map["author" := Str("a")]
  {
    DashesAtNine();
    CutAtDashes(DASHED_YAML, "c", 9);
    AuthorAsRead();
  }

  lemma AuthorAsRead()
    ensures var fm: Fields := map["author" := Str("a")]; FieldsAsRead(fm) == fm
  {
    var fm: Fields := map["author" := Str("a")];
    forall k | k in fm ensures AsRead(fm[k]) == fm[k] {}
  }

  lemma DashedWrite(c: Codec)
    requires c.jsonBytes(map["author" := Str("a---b")]) <= MAX_BYTES
    ensures CreateWrite(c, DASHED, "2024") == Ok(Write("a/index.fr.md", Page(DASHED_FIELDS, "c"), true))
  {
    DashedNames();
    DashedFields();
    DashedAccepted(c.jsonBytes(map["author" := Str("a---b")]));
  }

  lemma DashedNames()
    ensures TrimSpace("a") == "a" && TrimSpace("t") == "t" && TrimSpace("c") == "c"
    ensures NormalizeRoute("a") == Ok(("a", false)) && NormalizeCreateLang("fr") == Ok("fr")
    ensures PageRelativePath(false, "a", "fr") == "a/index.fr.md"
    ensures WritePlace("a/index.fr.md") == Some("a/index.fr.md")
  {
    LetterTrimmed('a');
    LetterTrimmed('t');
    LetterTrimmed('c');
    OneLetter();
    NormalRoute("a");
    FrenchPath();
  }

  lemma FrenchPath()
    ensures NormalizeCreateLang("fr") == Ok("fr") && PageRelativePath(false, "a", "fr") == "a/index.fr.md"
    ensures WritePlace("a/index.fr.md") == Some("a/index.fr.md")
  {
    InFrench();
    OneLetter();
    PathStem(false, "a", "fr");
    WritesItself("a");
    assert "a" + "/" + IndexName("fr") == "a/index.fr.md";
  }

  lemma LetterTrimmed(c: char)
    requires 'a' <= c <= 'z'
    ensures Trimmed([c]) && TrimSpace([c]) == [c]
  {
    TrimmedFixed([c]);
  }

  lemma OneLetter()
    ensures Normal("a")
  {
    SplitWord("a", '/');
    OddAllowed("a");
  }

  lemma DashedFields()
    ensures CreateFields("t", None, None, map["author" := Str("a---b")], "2024") == DASHED_FIELDS
  {
    var fm: Fields := map["author" := Str("a---b")];
    var r := CreateFields("t", None, None, fm, "2024");
    GivenFields("t", None, None, fm, "2024");
    forall k ensures Field(r, k) == Field(DASHED_FIELDS, k) {
      MergeOntoPlain(Overridden(map[], Some("t"), None, None), fm, "2024", k);
    }
    SameFields(r, DASHED_FIELDS);
  }

  lemma DashedAccepted(bytes: nat)
    requires bytes <= MAX_BYTES
    ensures var fm: Fields := map["author" := Str("a---b")];
      ValidateFrontmatter(fm, bytes, false, CreateDedicated("t", None, None)) == Ok(fm)
  {
    var fm: Fields := map["author" := Str("a---b")];
    assert fm.Keys == {"author"};
    assert fm.Keys * FORBIDDEN == {};
    assert Conflicts(fm, CreateDedicated("t", None, None)) == {};
    assert ValidTree(Str("a---b"), false, 2);
  }

  lemma DashesAtNine()
    ensures HasSuffix(DASHED_YAML, "\n") && OccursAt(DASHED_YAML, DASHES, 9) && "\n" + DASHED_YAML[..9] == "\nauthor: a"
    ensures forall j :: 0 <= j < 9 ==> !OccursAt(DASHED_YAML, DASHES, j)
  {
    var first, last := "author: a---b\n", "title: t\n";
    var yaml := first + "date: \"2024\"\nlastmod: \"2024\"\n" + last;
    assert first[9..12] == DASHES && yaml[9..12] == first[9..12];
    forall j | 0 <= j < 9 ensures !OccursAt(yaml, DASHES, j) {
      assert yaml[j] == first[j] != '-' && yaml[j..j + 3][0] == yaml[j];
    }
    assert yaml[..9] == first[..9] && "\n" + first[..9] == "\nauthor: a";
    assert yaml[|yaml| - 1..] == last[|last| - 1..] == "\n";
  }

  // ---------- One call ----------

  /** Forbidden keys, values below depth three and values of a foreign type were all there before, in place. */
  ghost predicate Inherits(was: Fields, now: Fields) {
    && (forall k :: k in FORBIDDEN && k in now ==> k in was)
    && (forall path :: Odd(now, path) ==> NodeAt(Obj(was), path) == NodeAt(Obj(now), path))
  }

  /** A place that validation would not let a caller fill. */
  predicate Odd(fm: Fields, path: seq<Step>) {
    NodeAt(Obj(fm), path).Some? && (|path| >= MAX_DEPTH || NodeAt(Obj(fm), path).value.Foreign?)
  }

  /** Nothing odd and nothing forbidden, as validation leaves it. */
  ghost predicate Tame(fm: Fields) {
    && (forall k :: k in FORBIDDEN ==> k !in fm)
    && (forall path :: NodeAt(Obj(fm), path).Some? ==> |path| < MAX_DEPTH && !NodeAt(Obj(fm), path).value.Foreign?)
  }

  lemma SetInherits(fm: Fields, k: string, v: Option<Json>)
    requires k !in FORBIDDEN && (v.Some? ==> v.value.Str? || v.value.Strs? || v.value.Bool?)
    ensures Inherits(fm, Set(fm, k, v))
  {
    var r := Set(fm, k, v);
    forall path | Odd(r, path) ensures NodeAt(Obj(fm), path) == NodeAt(Obj(r), path) {
    }
  }

  lemma InheritsTwice(a: Fields, b: Fields, c: Fields)
    requires Inherits(a, b) && Inherits(b, c)
    ensures Inherits(a, c)
  {
    forall path | Odd(c, path) ensures NodeAt(Obj(a), path) == NodeAt(Obj(c), path) {
      assert Odd(b, path);
    }
  }

  /** The keys the store sets itself are allowed. */
  lemma OwnKeys()
    ensures "date" !in FORBIDDEN && "lastmod" !in FORBIDDEN && "title" !in FORBIDDEN
    ensures "tags" !in FORBIDDEN && "draft" !in FORBIDDEN
  {
  }

  lemma OverriddenInherits(fm: Fields, title: Option<string>, tags: Option<seq<string>>, draft: Option<bool>)
    ensures Inherits(fm, Overridden(fm, title, tags, draft))
  {
    OwnKeys();
    var t := if title.Some? then Some(Str(title.value)) else None;
    var l := if tags.Some? then Some(Strs(tags.value)) else None;
    var d := if draft.Some? then Some(Bool(draft.value)) else None;
    SetInherits(fm, "title", t);
    SetInherits(Set(fm, "title", t), "tags", l);
    SetInherits(Set(Set(fm, "title", t), "tags", l), "draft", d);
    InheritsTwice(fm, Set(fm, "title", t), Set(Set(fm, "title", t), "tags", l));
    InheritsTwice(fm, Set(Set(fm, "title", t), "tags", l), Overridden(fm, title, tags, draft));
  }

  lemma DefaultTame(fm: Fields, k: string, now: string)
    requires Tame(fm) && k !in FORBIDDEN
    ensures Tame(WithDefault(fm, k, Str(now)))
  {
    var r := WithDefault(fm, k, Str(now));
    forall path | NodeAt(Obj(r), path).Some? ensures |path| < MAX_DEPTH && !NodeAt(Obj(r), path).value.Foreign? {
      if path != [] && path[0] == Key(k) && k !in fm {
        assert NodeAt(Obj(r), path) == NodeAt(Str(now), path[1..]);
      } else if path != [] {
        assert NodeAt(Obj(r), path) == NodeAt(Obj(fm), path);
      }
    }
  }

  lemma MergeInherits(was: Fields, fm: Fields)
    requires Tame(fm)
    ensures Inherits(was, DeepMerge(was, fm))
  {
    forall path | Odd(DeepMerge(was, fm), path)
      ensures NodeAt(Obj(was), path) == NodeAt(Obj(DeepMerge(was, fm)), path)
    {
      MergedNode(was, fm, path);
    }
  }

  lemma AcceptedTame(fm: Fields, bytes: nat, isUpdate: bool, dedicated: map<string, Dedicated>)
    requires ValidateFrontmatter(fm, bytes, isUpdate, dedicated).Ok?
    ensures Tame(fm)
  {
    Accepted(fm, bytes, isUpdate, dedicated);
  }

  /** A merged key the update does not mention, besides the default it is given. */
  lemma KeptField(base: Fields, fm: Fields, d: string, now: string, k: string)
    requires k !in fm
    ensures Field(DeepMerge(base, WithDefault(fm, d, Str(now))), k) == if k == d then Some(Str(now)) else Field(base, k)
  {
    MergeField(base, WithDefault(fm, d, Str(now)), k);
  }

  lemma OverriddenFields(fm: Fields, title: Option<string>, tags: Option<seq<string>>, draft: Option<bool>)
    ensures var r := Overridden(fm, title, tags, draft);
      && Field(r, "title") == (if title.Some? then Some(Str(title.value)) else Field(fm, "title"))
      && Field(r, "tags") == (if tags.Some? then Some(Strs(tags.value)) else Field(fm, "tags"))
      && Field(r, "draft") == (if draft.Some? then Some(Bool(draft.value)) else Field(fm, "draft"))
      && forall k :: k !in ["title", "tags", "draft"] ==> Field(r, k) == Field(fm, k)
  {
  }

  /**
   * After an update the date is the old one, title, tags and draft are the dedicated values if given and the old
   * ones otherwise, `lastmod` is the given or the current time, and a key the caller does not mention stays.
   */
  lemma UpdatedFields(was: Fields, title: Option<string>, tags: Option<seq<string>>, draft: Option<bool>, fm: Fields,
      bytes: nat, now: string)
    requires ValidateFrontmatter(fm, bytes, true, UpdateDedicated(title, tags, draft)).Ok?
    ensures var final := UpdateFields(was, title, tags, draft, fm, now);
      && Field(final, "date") == Field(was, "date")
      && Field(final, "title") == (if title.Some? then Some(Str(title.value)) else Field(was, "title"))
      && Field(final, "tags") == (if tags.Some? then Some(Strs(tags.value)) else Field(was, "tags"))
      && Field(final, "draft") == (if draft.Some? then Some(Bool(draft.value)) else Field(was, "draft"))
      && ("lastmod" !in fm ==> Field(final, "lastmod") == Some(Str(now)))
      && forall k :: k !in fm && k !in ["lastmod", "title", "tags", "draft"] ==> Field(final, k) == Field(was, k)
  {
    AcceptedUpdate(fm, bytes, title, tags, draft);
    UntouchedFields(was, title, tags, draft, fm, now);
  }

  lemma UntouchedFields(was: Fields, title: Option<string>, tags: Option<seq<string>>, draft: Option<bool>,
      fm: Fields, now: string)
    requires "date" !in fm && "title" !in fm && "tags" !in fm && "draft" !in fm
    ensures var final := UpdateFields(was, title, tags, draft, fm, now);
      && Field(final, "date") == Field(was, "date")
      && Field(final, "title") == (if title.Some? then Some(Str(title.value)) else Field(was, "title"))
      && Field(final, "tags") == (if tags.Some? then Some(Strs(tags.value)) else Field(was, "tags"))
      && Field(final, "draft") == (if draft.Some? then Some(Bool(draft.value)) else Field(was, "draft"))
      && ("lastmod" !in fm ==> Field(final, "lastmod") == Some(Str(now)))
      && forall k :: k !in fm && k !in ["lastmod", "title", "tags", "draft"] ==> Field(final, k) == Field(was, k)
  {
    var base := Overridden(was, title, tags, draft);
    OverriddenFields(was, title, tags, draft);
    forall k | k !in fm
      ensures Field(UpdateFields(was, title, tags, draft, fm, now), k) ==
                if k == "lastmod" then Some(Str(now)) else Field(base, k)
    {
      KeptField(base, fm, "lastmod", now, k);
    }
  }

  lemma UpdateInherits(was: Fields, title: Option<string>, tags: Option<seq<string>>, draft: Option<bool>, fm: Fields,
      now: string)
    requires Tame(fm)
    ensures Inherits(was, UpdateFields(was, title, tags, draft, fm, now))
  {
    OwnKeys();
    var base := Overridden(was, title, tags, draft);
    DefaultTame(fm, "lastmod", now);
    MergeInherits(base, WithDefault(fm, "lastmod", Str(now)));
    OverriddenInherits(was, title, tags, draft);
    InheritsTwice(was, base, UpdateFields(was, title, tags, draft, fm, now));
  }

  /** A new page has its title, a date and a `lastmod`; the dedicated tags and draft if given; and every given field. */
  lemma CreatedFields(title: string, tags: Option<seq<string>>, draft: Option<bool>, fm: Fields, bytes: nat,
      now: string)
    requires title != "" && ValidateFrontmatter(fm, bytes, false, CreateDedicated(title, tags, draft)).Ok?
    ensures var final := CreateFields(title, tags, draft, fm, now);
      && Field(final, "title") == Some(Str(title))
      && Field(final, "date") == (if "date" in fm then Some(fm["date"]) else Some(Str(now)))
      && Field(final, "lastmod") == (if "lastmod" in fm then Some(fm["lastmod"]) else Some(Str(now)))
      && Field(final, "draft") == (if draft.Some? then Some(Bool(draft.value)) else None)
      && ("tags" !in fm ==> Field(final, "tags") == if tags.Some? then Some(Strs(tags.value)) else None)
      && forall k :: k in fm ==> Field(final, k) == Some(fm[k])
  {
    AcceptedCreate(fm, bytes, title, tags, draft);
    assert forall k :: k in fm ==> !fm[k].Null?;
    GivenFields(title, tags, draft, fm, now);
  }

  lemma GivenFields(title: string, tags: Option<seq<string>>, draft: Option<bool>, fm: Fields, now: string)
    requires "title" !in fm && "draft" !in fm && forall k :: k in fm ==> !fm[k].Null?
    ensures var final := CreateFields(title, tags, draft, fm, now);
      && Field(final, "title") == Some(Str(title))
      && Field(final, "date") == (if "date" in fm then Some(fm["date"]) else Some(Str(now)))
      && Field(final, "lastmod") == (if "lastmod" in fm then Some(fm["lastmod"]) else Some(Str(now)))
      && Field(final, "draft") == (if draft.Some? then Some(Bool(draft.value)) else None)
      && ("tags" !in fm ==> Field(final, "tags") == if tags.Some? then Some(Strs(tags.value)) else None)
      && forall k :: k in fm ==> Field(final, k) == Some(fm[k])
  {
    var base, dated := Overridden(map[], Some(title), tags, draft), WithDefault(fm, "date", Str(now));
    OverriddenFields(map[], Some(title), tags, draft);
    BaseKeys(title, tags, draft);
    forall k ensures Field(CreateFields(title, tags, draft, fm, now), k) == GivenValue(base, fm, now, k) {
      MergeOntoPlain(base, fm, now, k);
    }
  }

  function GivenValue(base: Fields, fm: Fields, now: string, k: string): Option<Json> {
    if k in fm then Some(fm[k]) else if k == "date" || k == "lastmod" then Some(Str(now)) else Field(base, k)
  }

  lemma MergeOntoPlain(base: Fields, fm: Fields, now: string, k: string)
    requires (forall x :: x in base ==> !base[x].Obj?) && forall x :: x in fm ==> !fm[x].Null?
    ensures Field(DeepMerge(base, WithDefault(WithDefault(fm, "date", Str(now)), "lastmod", Str(now))), k) ==
              GivenValue(base, fm, now, k)
  {
    MergeField(base, WithDefault(WithDefault(fm, "date", Str(now)), "lastmod", Str(now)), k);
  }

  /** The dedicated values of a new page are never objects. */
  lemma BaseKeys(title: string, tags: Option<seq<string>>, draft: Option<bool>)
    ensures var base := Overridden(map[], Some(title), tags, draft); forall k :: k in base ==> !base[k].Obj?
  {
  }

  lemma CreateInherits(title: string, tags: Option<seq<string>>, draft: Option<bool>, fm: Fields, now: string)
    requires Tame(fm)
    ensures Inherits(map[], CreateFields(title, tags, draft, fm, now))
  {
    OwnKeys();
    var base, dated := Overridden(map[], Some(title), tags, draft), WithDefault(fm, "date", Str(now));
    DefaultTame(fm, "date", now);
    DefaultTame(dated, "lastmod", now);
    MergeInherits(base, WithDefault(dated, "lastmod", Str(now)));
    OverriddenInherits(map[], Some(title), tags, draft);
    InheritsTwice(map[], base, CreateFields(title, tags, draft, fm, now));
  }

  // ---------- Depth after reading ----------

  /** A list of strings that becomes too deep when read: its strings stand one step below it. */
  predicate DeepList(fm: Fields, path: seq<Step>) {
    |path| + 1 >= MAX_DEPTH && NodeAt(Obj(fm), path).Some? && match NodeAt(Obj(fm), path).value
      case Strs(texts) => texts != []
      case _ => false
  }

  /** JSON has no lists of strings of their own type, so what clients send has none of these. */
  ghost predicate ListsShallow(fm: Fields) {
    forall path :: !DeepList(fm, path)
  }

  /** Accepted frontmatter is still within the depth when read back, exactly if no list of strings stands too deep. */
  lemma DepthKeptIff(fm: Fields)
    requires Tame(fm)
    ensures (forall path :: NodeAt(Obj(FieldsAsRead(fm)), path).Some? ==> |path| < MAX_DEPTH) <==> ListsShallow(fm)
  {
    var r := Obj(FieldsAsRead(fm));
    assert r == AsRead(Obj(fm));
    forall path | NodeAt(r, path).Some? && |path| >= MAX_DEPTH ensures !ListsShallow(fm) {
      NodeAsRead(Obj(fm), path);
      assert DeepList(fm, path[..|path| - 1]);
    }
    forall path | DeepList(fm, path) ensures NodeAt(r, path + [Index(0)]).Some? {
      var below := path + [Index(0)];
      assert below[..|below| - 1] == path;
      NodeAsRead(Obj(fm), below);
      NodeBelow(Obj(fm), path);
    }
    if !ListsShallow(fm) {
      var path :| DeepList(fm, path);
      assert NodeAt(r, path + [Index(0)]).Some?;
    }
  }

  /** A list of strings has nothing below it before it is read. */
  lemma {:induction false} NodeBelow(v: Json, path: seq<Step>)
    requires NodeAt(v, path).Some? && NodeAt(v, path).value.Strs?
    ensures NodeAt(v, path + [Index(0)]) == None
    decreases |path|
  {
    var below := path + [Index(0)];
    if path != [] {
      assert below[1..] == path[1..] + [Index(0)] && below[0] == path[0];
      match (v, path[0])
      case (Obj(fields), Key(k)) => NodeBelow(fields[k], path[1..]);
      case (Arr(items), Index(i)) => NodeBelow(items[i], path[1..]);
    }
  }

  /** What was read has no lists of strings at all. */
  lemma ReadHasNone(m: Fields)
    ensures ListsShallow(FieldsAsRead(m))
    ensures forall path :: NodeAt(Obj(FieldsAsRead(m)), path).Some? ==>
              var n := NodeAt(Obj(FieldsAsRead(m)), path).value; AsRead(n) == n && !n.Strs?
  {
    assert Obj(FieldsAsRead(m)) == AsRead(Obj(m));
    forall path | NodeAt(Obj(FieldsAsRead(m)), path).Some?
      ensures var n := NodeAt(Obj(FieldsAsRead(m)), path).value; AsRead(n) == n && !n.Strs?
    {
      NodeAsRead(Obj(m), path);
      if NodeAt(Obj(m), path).Some? { AsReadTwice(NodeAt(Obj(m), path).value); }
    }
  }

  lemma SetShallow(fm: Fields, k: string, v: Option<Json>)
    requires ListsShallow(fm) && (v.Some? ==> v.value.Str? || v.value.Strs? || v.value.Bool?)
    ensures ListsShallow(Set(fm, k, v))
  {
    var r := Set(fm, k, v);
    forall path ensures !DeepList(r, path) {
      assert !DeepList(fm, path);
      if |path| > 1 {
        if path[0] == Key(k) && v.Some? {
          assert NodeAt(Obj(r), path) == NodeAt(v.value, path[1..]);
        } else {
          assert NodeAt(Obj(r), path) == NodeAt(Obj(fm), path);
        }
      }
    }
  }

  lemma OverriddenShallow(fm: Fields, title: Option<string>, tags: Option<seq<string>>, draft: Option<bool>)
    requires ListsShallow(fm)
    ensures ListsShallow(Overridden(fm, title, tags, draft))
  {
    var t := if title.Some? then Some(Str(title.value)) else None;
    var l := if tags.Some? then Some(Strs(tags.value)) else None;
    SetShallow(fm, "title", t);
    SetShallow(Set(fm, "title", t), "tags", l);
    SetShallow(Set(Set(fm, "title", t), "tags", l), "draft", if draft.Some? then Some(Bool(draft.value)) else None);
  }

  lemma DefaultShallow(fm: Fields, k: string, now: string)
    requires ListsShallow(fm)
    ensures ListsShallow(WithDefault(fm, k, Str(now)))
  {
    SetShallow(fm, k, Some(Str(now)));
  }

  lemma MergeShallow(e: Fields, u: Fields)
    requires ListsShallow(e) && ListsShallow(u)
    ensures ListsShallow(DeepMerge(e, u))
  {
    forall path ensures !DeepList(DeepMerge(e, u), path) {
      assert !DeepList(e, path) && !DeepList(u, path);
      if NodeAt(Obj(DeepMerge(e, u)), path).Some? { MergedNode(e, u, path); }
    }
  }

  /** Nothing odd appears by reading back what inherits from a page as read. */
  lemma ReadInherits(was: Fields, fm: Fields)
    requires Inherits(was, fm) && ListsShallow(fm) && FieldsAsRead(was) == was
    ensures Inherits(was, FieldsAsRead(fm))
  {
    var r := FieldsAsRead(fm);
    assert Obj(r) == AsRead(Obj(fm));
    ReadHasNone(was);
    forall path | Odd(r, path) ensures NodeAt(Obj(was), path) == NodeAt(Obj(r), path) {
      NodeAsRead(Obj(fm), path);
      if path != [] { assert !DeepList(fm, path[..|path| - 1]); }
      if NodeAt(Obj(fm), path).Some? { assert Odd(fm, path); }
    }
  }
}
