/** Calls read back, repeated and undone. */
module StoreCalls {
  import opened Wrappers
  import opened Text
  import opened Paths
  import opened Naming
  import opened Addressing
  import opened OddNames
  import opened Merge
  import opened Validation
  import opened Reading
  import opened Store
  import opened StoreTheorems
  import opened StoreRuns

  // ---------- After a create ----------

  /** A successful Create: the file its path leads to, where there was none, now holds the page. */
  lemma Created(c: Codec, files: Files, limit: nat, r: Request, now: string)
    requires r.Create? && Outcome(c, files, limit, r, now, FINE).Ok?
    ensures TrimSpace(r.route) != "" && CreateWrite(c, r, now).Ok? && CreatesAt(r.route, r.lang).Some?
    ensures var (rel, after) := Outcome(c, files, limit, r, now, FINE).value;
      var w, place := CreateWrite(c, r, now).value, CreatesAt(r.route, r.lang).value;
      && Creates(r.route, r.lang) == Some(rel) && place !in files && after == files[place := RawOf(c, w.page)]
      && Fits(c, after, limit, place) && w.page.content == r.body
  {
  }

  /** The read or looked-up path comes to the file that the create has written. */
  predicate Meets(got: Result<(string, Page), Failure>, r: Request) {
    got.Ok? && ReadPlace(got.value.0) == CreatesAt(r.route, r.lang)
  }

  /**
   * Reading with the arguments of a successful create comes to the page it wrote, exactly if a language is given and
   * the name is not the root page's and has no white space at its end; the page then holds what was written, as read.
   */
  lemma CreateThenGet(c: Codec, files: Files, limit: nat, r: Request, now: string)
    requires r.Create? && Outcome(c, files, limit, r, now, FINE).Ok? && CreateWrite(c, r, now).Ok?
    ensures var after := Outcome(c, files, limit, r, now, FINE).value.1;
      var got := Get(c, after, limit, r.route, r.lang); var fm := CreateWrite(c, r, now).value.page.fm;
      && (Meets(got, r) <==> ReaderMeetsCreate(r.route, r.lang))
      && (Meets(got, r) && Faithful(c, fm) ==> got.value.1 == Page(FieldsAsRead(fm), TrimSpace(r.body)))
  {
    var after := Outcome(c, files, limit, r, now, FINE).value.1;
    Created(c, files, limit, r, now);
    ReaderFindsCreated(r.route, r.lang, after.Keys);
    GetSelects(c, after, limit, r.route, r.lang);
    if Faithful(c, CreateWrite(c, r, now).value.page.fm) { ReadBack(c, CreateWrite(c, r, now).value.page); }
  }

  /** A mutation with these arguments looks that page up exactly if its name, cleaned again, is looked up as it is. */
  lemma CreateThenLookup(c: Codec, files: Files, limit: nat, r: Request, now: string)
    requires r.Create? && Outcome(c, files, limit, r, now, FINE).Ok?
    ensures var after := Outcome(c, files, limit, r, now, FINE).value.1;
      Meets(Lookup(c, after, limit, r.route, r.lang), r) <==> LookupMeetsCreate(r.route, r.lang)
  {
    var after := Outcome(c, files, limit, r, now, FINE).value.1;
    Created(c, files, limit, r, now);
    MutationFindsCreated(r.route, r.lang, after.Keys);
    LookupAddresses(c, after, limit, r.route, r.lang);
  }

  /** A successful update with them changes that page exactly if moreover the name has no white space at its end. */
  lemma CreateThenUpdate(c: Codec, files: Files, limit: nat, r: Request, now: string, call: Call)
    requires r.Create? && Outcome(c, files, limit, r, now, FINE).Ok?
    requires call.r.Update? && call.r.route == r.route && call.r.lang == r.lang
    ensures var after := Outcome(c, files, limit, r, now, FINE).value.1;
      Outcome(c, after, limit, call.r, call.now, call.f).Ok? ==>
        (Writes(c, limit, after, call) == CreatesAt(r.route, r.lang) <==> MutationsMeetCreate(r.route, r.lang))
  {
    var after := Outcome(c, files, limit, r, now, FINE).value.1;
    Created(c, files, limit, r, now);
    MutationTouchesCreated(r.route, r.lang, after.Keys);
    if Outcome(c, after, limit, call.r, call.now, call.f).Ok? { UpdateWrites(c, limit, after, call); }
  }

  /** A path under which something small enough is read, something opened, and something removed. */
  predicate Removable(c: Codec, files: Files, limit: nat, rel: Option<string>) {
    && PlaceRead(rel).Some? && Fits(c, files, limit, PlaceRead(rel).value)
    && PlaceOpened(rel).Some? && PlaceOpened(rel).value in files
    && PlaceWritten(rel).Some? && PlaceWritten(rel).value in files
  }

  /** What a delete removes, by the path it looks up. */
  lemma DeleteOutcome(c: Codec, files: Files, limit: nat, route: string, lang: string, now: string)
    requires TrimSpace(route) != ""
    ensures var o, rel := Outcome(c, files, limit, Delete(route, lang), now, FINE), Addresses(route, lang, files.Keys);
      && (o.Ok? ==> rel.Some? && PlaceWritten(rel).Some? && o.value == (rel.value, files - {PlaceWritten(rel).value}))
      && (o.Ok? <==> Removable(c, files, limit, rel))
  {
    LookupAddresses(c, files, limit, route, lang);
  }

  lemma TakenBack(files: Files, place: string, raw: string, x: string)
    requires place !in files
    ensures files[place := raw] - {x} == files <==> x == place
  {
    if x != place { assert place in files[place := raw] - {x}; }
  }

  /** Deleting with the arguments of a successful create restores the files, under the same condition. */
  lemma CreateThenDelete(c: Codec, files: Files, limit: nat, r: Request, now: string, later: string)
    requires r.Create? && Outcome(c, files, limit, r, now, FINE).Ok?
    ensures var after := Outcome(c, files, limit, r, now, FINE).value.1;
      var o := Outcome(c, after, limit, Delete(r.route, r.lang), later, FINE);
      o.Ok? && o.value.1 == files <==> MutationsMeetCreate(r.route, r.lang)
  {
    var after := Outcome(c, files, limit, r, now, FINE).value.1;
    var place, rel := CreatesAt(r.route, r.lang).value, Addresses(r.route, r.lang, after.Keys);
    Created(c, files, limit, r, now);
    DeleteOutcome(c, after, limit, r.route, r.lang, later);
    MutationTouchesCreated(r.route, r.lang, after.Keys);
    if PlaceWritten(rel).Some? {
      TakenBack(files, place, RawOf(c, CreateWrite(c, r, now).value.page), PlaceWritten(rel).value);
    }
    if MutationsMeetCreate(r.route, r.lang) { MutationOpensCreated(r.route, r.lang, after.Keys); }
  }

  // ---------- After an update ----------

  /** An update that succeeds and whose YAML reads back. */
  predicate ReadsBack(c: Codec, files: Files, limit: nat, r: Request, now: string)
    requires r.Update?
  {
    && Outcome(c, files, limit, r, now, FINE).Ok? && UpdateWrite(c, files, limit, r, now).Ok?
    && Faithful(c, UpdateWrite(c, files, limit, r, now).value.page.fm)
  }

  /** The path an update goes by, the file it has read under it, and the file it has changed. */
  lemma UpdateOutcome(c: Codec, files: Files, limit: nat, r: Request, now: string)
    requires r.Update? && Outcome(c, files, limit, r, now, FINE).Ok?
    ensures UpdateWrite(c, files, limit, r, now).Ok?
    ensures var w := UpdateWrite(c, files, limit, r, now).value;
      && Addresses(r.route, r.lang, files.Keys) == Some(w.rel)
      && ReadPlace(w.rel).Some? && ReadPlace(w.rel).value in files && WritePlace(w.rel).Some?
      && Outcome(c, files, limit, r, now, FINE).value == (w.rel, files[WritePlace(w.rel).value := RawOf(c, w.page)])
  {
    UpdateParts(c, files, limit, r, now);
  }

  lemma UpdateBody(c: Codec, files: Files, limit: nat, r: Request, now: string)
    requires r.Update? && UpdateWrite(c, files, limit, r, now).Ok?
    ensures var w := UpdateWrite(c, files, limit, r, now).value; var source := ReadPlace(w.rel);
      && source.Some? && source.value in files
      && w.page.content == if r.content.Some? then r.content.value else View(c, files[source.value]).content
  {
    LookupFinds(c, files, limit, r.route, r.lang);
  }

  /** The one file an update leaves changed, and the page in it. */
  lemma UpdateLeaves(c: Codec, files: Files, limit: nat, r: Request, now: string)
    requires r.Update? && ReadsBack(c, files, limit, r, now)
    ensures var (rel, after) := Outcome(c, files, limit, r, now, FINE).value;
            var w := UpdateWrite(c, files, limit, r, now).value; var source, place := ReadPlace(rel), WritePlace(rel);
      && rel == w.rel && source.Some? && source.value in files && place.Some? && place.value in after
      && after - {place.value} == files - {place.value}
      && View(c, after[place.value]) == Page(FieldsAsRead(w.page.fm), TrimSpace(w.page.content))
      && w.page.content == if r.content.Some? then r.content.value else View(c, files[source.value]).content
  {
    UpdateOutcome(c, files, limit, r, now);
    UpdateBody(c, files, limit, r, now);
    var w := UpdateWrite(c, files, limit, r, now).value;
    var place := WritePlace(w.rel).value;
    ReadBack(c, w.page);
    assert files[place := RawOf(c, w.page)] - {place} == files - {place};
  }

  /**
   * A successful update, as read back: title, tags, draft and content are the given ones or those of the page found,
   * tags being a general list; the date is that page's; and no other file is touched. Exactly if the name is settled
   * the page found is the page changed.
   */
  lemma UpdateThenRead(c: Codec, files: Files, limit: nat, r: Request, now: string)
    requires r.Update? && ReadsBack(c, files, limit, r, now)
    ensures var (rel, after) := Outcome(c, files, limit, r, now, FINE).value;
      var source, place := ReadPlace(rel), WritePlace(rel);
      && Addresses(r.route, r.lang, files.Keys) == Some(rel) && (source == place <==> Settled(r.route))
      && source.Some? && source.value in files && place.Some? && place.value in after
      && after - {place.value} == files - {place.value}
      && var was, page := View(c, files[source.value]), View(c, after[place.value]);
      && page.content == TrimSpace(if r.content.Some? then r.content.value else was.content)
      && Field(page.fm, "date") == Field(was.fm, "date")
      && Field(page.fm, "title") == (if r.title.Some? then Some(Str(r.title.value)) else Field(was.fm, "title"))
      && Field(page.fm, "tags") == (if r.tags.Some? then Some(AsRead(Strs(r.tags.value))) else Field(was.fm, "tags"))
      && Field(page.fm, "draft") == (if r.draft.Some? then Some(Bool(r.draft.value)) else Field(was.fm, "draft"))
  {
    UpdateOutcome(c, files, limit, r, now);
    UpdateLeaves(c, files, limit, r, now);
    UpdateParts(c, files, limit, r, now);
    ReadsWhatItTouches(r.route, r.lang, files.Keys);
    var raw, fm := files[ReadPlace(UpdateWrite(c, files, limit, r, now).value.rel).value], r.changes.fields;
    UpdatedAsRead(View(c, raw).fm, r.title, r.tags, r.draft, fm, c.jsonBytes(fm), now);
    ViewedAsRead(c, raw);
  }

  lemma UpdatedAsRead(was: Fields, title: Option<string>, tags: Option<seq<string>>, draft: Option<bool>,
                      fm: Fields, bytes: nat, now: string)
    requires ValidateFrontmatter(fm, bytes, true, UpdateDedicated(title, tags, draft)).Ok?
    ensures var r, was' := FieldsAsRead(UpdateFields(was, title, tags, draft, fm, now)), FieldsAsRead(was);
      && Field(r, "date") == Field(was', "date")
      && Field(r, "title") == (if title.Some? then Some(Str(title.value)) else Field(was', "title"))
      && Field(r, "tags") == (if tags.Some? then Some(AsRead(Strs(tags.value))) else Field(was', "tags"))
      && Field(r, "draft") == (if draft.Some? then Some(Bool(draft.value)) else Field(was', "draft"))
  {
    UpdatedFields(was, title, tags, draft, fm, bytes, now);
    var final := UpdateFields(was, title, tags, draft, fm, now);
    forall k ensures Field(FieldsAsRead(final), k) == OptionAsRead(Field(final, k))
             ensures Field(FieldsAsRead(was), k) == OptionAsRead(Field(was, k)) {
      FieldAsRead(final, k);
      FieldAsRead(was, k);
    }
  }

  // ---------- The same update twice ----------

  /** Overriding with what is there already changes nothing, as far as can be read. */
  lemma OverriddenAgain(was: Fields, title: Option<string>, tags: Option<seq<string>>, draft: Option<bool>)
    requires title.Some? ==> Field(was, "title") == Some(Str(title.value))
    requires tags.Some? ==> Field(was, "tags") == Some(AsRead(Strs(tags.value)))
    requires draft.Some? ==> Field(was, "draft") == Some(Bool(draft.value))
    requires FieldsAsRead(was) == was
    ensures FieldsAsRead(Overridden(was, title, tags, draft)) == was
  {
    var o := Overridden(was, title, tags, draft);
    OverriddenFields(was, title, tags, draft);
    forall k ensures Field(FieldsAsRead(o), k) == Field(was, k) {
      FieldAsRead(o, k);
      FieldAsRead(was, k);
    }
    SameFields(FieldsAsRead(o), was);
  }

  /** With the clock unmoved, the fields read the same exactly if no object with a null landed on a non-object. */
  lemma FieldsUpdatedTwice(was: Fields, title: Option<string>, tags: Option<seq<string>>, draft: Option<bool>,
                           fm: Fields, bytes: nat, now: string)
    requires ValidateFrontmatter(fm, bytes, true, UpdateDedicated(title, tags, draft)).Ok? && FieldsAsRead(was) == was
    ensures var once := FieldsAsRead(UpdateFields(was, title, tags, draft, fm, now));
      FieldsAsRead(UpdateFields(once, title, tags, draft, fm, now)) == once
      <==> NullsLandOnObjects(Overridden(was, title, tags, draft), WithDefault(fm, "lastmod", Str(now)))
  {
    var base, changes := Overridden(was, title, tags, draft), WithDefault(fm, "lastmod", Str(now));
    var once := FieldsAsRead(DeepMerge(base, changes));
    UpdatedAsRead(was, title, tags, draft, fm, bytes, now);
    FieldsAsReadTwice(DeepMerge(base, changes));
    OverriddenAgain(once, title, tags, draft);
    MergedThenRead(base, changes);
    MergedThenRead(Overridden(once, title, tags, draft), changes);
    Idempotent(FieldsAsRead(base), FieldsAsRead(changes));
    NullsLandAsRead(base, changes);
  }

  /** Files written with a language do not change what is selected without one, and the other way round. */
  lemma SameAgain(c: Codec, files: Files, after: Files, route: string, lang: string, place: string)
    requires Addresses(route, lang, files.Keys).Some? && PlaceWritten(Addresses(route, lang, files.Keys)) == Some(place)
    requires after.Keys == files.Keys + {place} && Addresses(route, lang, after.Keys).Some?
    ensures Addresses(route, lang, after.Keys) == Addresses(route, lang, files.Keys)
  {
    var l := NormalizeOptionalLang(lang).value;
    AddressesByReader(route, lang, files.Keys);
    AddressesByReader(route, lang, after.Keys);
    ReadersNameOk(route);
    SelectedAgain(ReadersName(route).value.0, l, files.Keys, after.Keys, place);
  }

  /**
   * Sending an update again writes the same file. The page then reads the same as after the first time, exactly if
   * no object with a null landed on a missing or non-object value; or, the name not being settled, in any case.
   */
  lemma UpdateTwice(c: Codec, files: Files, after: Files, limit: nat, r: Request, now: string)
    requires r.Update? && ReadsBack(c, files, limit, r, now) && after == Outcome(c, files, limit, r, now, FINE).value.1
    requires ReadsBack(c, after, limit, r, now)
    ensures var (rel, last) := Outcome(c, after, limit, r, now, FINE).value;
      var source, place := ReadPlace(rel), WritePlace(rel);
      && rel == Outcome(c, files, limit, r, now, FINE).value.0
      && source.Some? && source.value in files && place.Some? && place.value in after && place.value in last
      && r.changes.Dict?
      && (View(c, last[place.value]) == View(c, after[place.value]) <==>
          !Settled(r.route) ||
          NullsLandOnObjects(Overridden(View(c, files[source.value]).fm, r.title, r.tags, r.draft),
                             WithDefault(r.changes.fields, "lastmod", Str(now))))
  {
    UpdateOutcome(c, files, limit, r, now);
    UpdateOutcome(c, after, limit, r, now);
    UpdateLeaves(c, files, limit, r, now);
    UpdateLeaves(c, after, limit, r, now);
    UpdateParts(c, files, limit, r, now);
    UpdateParts(c, after, limit, r, now);
    var one, fm := UpdateWrite(c, files, limit, r, now).value, r.changes.fields;
    var source, place := ReadPlace(one.rel).value, WritePlace(one.rel).value;
    assert after.Keys == files.Keys + {place};
    SameAgain(c, files, after, r.route, r.lang, place);
    ReadsWhatItTouches(r.route, r.lang, files.Keys);
    if source == place {
      TrimSpaceTrims(one.page.content);
      ViewedAsRead(c, files[source]);
      FieldsUpdatedTwice(View(c, files[source]).fm, r.title, r.tags, r.draft, fm, c.jsonBytes(fm), now);
    } else {
      assert after[source] == files[source];
    }
  }

  // ---------- Where it goes wrong ----------

  /** Without a language a create writes the French page, and a delete then removes the page without a language. */
  lemma DefaultLanguageDeletesOther(c: Codec, files: Files, limit: nat, r: Request, now: string, later: string)
    requires r.Create? && r.lang == "" && Outcome(c, files, limit, r, now, FINE).Ok?
    requires MutationsMeetCreate(r.route, "fr")
    requires Sibling(r.route).Some? && Fits(c, files, limit, Sibling(r.route).value)
    ensures var after := Outcome(c, files, limit, r, now, FINE).value.1; var other := Sibling(r.route).value;
      var o := Outcome(c, after, limit, Delete(r.route, r.lang), later, FINE);
      CreatesAt(r.route, r.lang) != Some(other) && o.Ok? && o.value.1 == after - {other}
  {
    var after := Outcome(c, files, limit, r, now, FINE).value.1;
    Created(c, files, limit, r, now);
    DefaultLanguageApart(r.route, after.Keys);
    DeleteOutcome(c, after, limit, r.route, r.lang, later);
  }

  /** A delete of "./index" removes the root page. */
  lemma DotSlashIndexDeletesRoot(c: Codec, files: Files, limit: nat, now: string)
    requires Fits(c, files, limit, "_index.fr.md")
    ensures Outcome(c, files, limit, Delete("./index", "fr"), now, FINE) ==
              Ok(("_index.fr.md", files - {"_index.fr.md"}))
  {
    DotSlashIndexIsRoot(files.Keys);
    DotSlashGiven();
    DeleteOutcome(c, files, limit, "./index", "fr", now);
  }

  /** A name `a`, as in "a /": what is printed is not what is written, and reading the printed path finds nothing. */
  lemma CreatedElsewhere(c: Codec, files: Files, limit: nat, r: Request, now: string, a: string)
    requires r.Create? && Outcome(c, files, limit, r, now, FINE).Ok?
    requires Normal(a) && Trimmed(a) && r.route == a + " /" && r.lang == "fr"
    requires a + " /" + IndexName("fr") !in files && a + " /" + "index.md" !in files
    ensures var (rel, after) := Outcome(c, files, limit, r, now, FINE).value;
      && rel == a + " /" + IndexName("fr") && after.Keys == files.Keys + {a + "/" + IndexName("fr")}
      && Get(c, after, limit, r.route, r.lang) == Err(NotFound)
  {
    var after := Outcome(c, files, limit, r, now, FINE).value.1;
    Created(c, files, limit, r, now);
    PrintedElsewhere(a, after.Keys);
    SpacedApart(a);
    InFrench();
  }

  lemma SpacedApart(a: string)
    ensures a + "/" + IndexName("fr") != a + " /" + IndexName("fr")
    ensures a + "/" + IndexName("fr") != a + " /" + "index.md"
  {
    assert (a + "/" + IndexName("fr"))[|a|] == '/';
    assert (a + " /" + IndexName("fr"))[|a|] == ' ' && (a + " /" + "index.md")[|a|] == ' ';
  }

  /** As in "a / /.": a delete finds the page in "a ", and removes the one in "a". */
  lemma OtherPageDeleted(c: Codec, files: Files, limit: nat, a: string, now: string)
    requires Normal(a) && Trimmed(a) && Fits(c, files, limit, a + " /" + IndexName("fr"))
    requires a + "/" + IndexName("fr") in files
    ensures var o := Outcome(c, files, limit, Delete(a + " / /.", "fr"), now, FINE);
      o.Ok? && o.value.1 == files - {a + "/" + IndexName("fr")}
  {
    OtherPageTouched(a, files.Keys);
    SpacedGiven(a + " / /.");
    DeleteOutcome(c, files, limit, a + " / /.", "fr", now);
  }

  lemma SpacedGiven(s: string)
    requires s != "" && !IsSpace(s[|s| - 1])
    ensures TrimSpace(s) != ""
  {
    if TrimLeft(s) == "" { Places.AllSpaces(s); } else { TrimLeftShape(s); }
  }

  /** As in "./ ./ ./ a": a delete removes the page it has found, and keeps a copy of another one. */
  lemma OtherPageCopied(c: Codec, files: Files, limit: nat, a: string, now: string)
    requires Normal(a) && Trimmed(a) && Fits(c, files, limit, " " + a + "/" + IndexName("fr"))
    requires a + "/" + IndexName("fr") in files
    ensures var o := Outcome(c, files, limit, Delete(DottedRoute(a), "fr"), now, FINE);
      o.Ok? && o.value.1 == files - {" " + a + "/" + IndexName("fr")}
      && OpenPlace(o.value.0) == Some(a + "/" + IndexName("fr"))
  {
    OtherPageOpened(a, files.Keys);
    NormalStarts(a);
    SpacedGiven(DottedRoute(a));
    DeleteOutcome(c, files, limit, DottedRoute(a), "fr", now);
  }

  /** An update of such a route puts the date of the page it finds on the one it changes. */
  lemma DateMoves(c: Codec, files: Files, limit: nat, r: Request, now: string, a: string)
    requires r.Update? && ReadsBack(c, files, limit, r, now)
    requires Normal(a) && Trimmed(a) && r.route == a + " / /." && r.lang == "fr"
    requires a + " /" + IndexName("fr") in files
    ensures var after := Outcome(c, files, limit, r, now, FINE).value.1; var f := a + "/" + IndexName("fr");
      f in after && Field(View(c, after[f]).fm, "date") == Field(View(c, files[a + " /" + IndexName("fr")]).fm, "date")
  {
    OtherPageTouched(a, files.Keys);
    UpdateThenRead(c, files, limit, r, now);
  }
}
