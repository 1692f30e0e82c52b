/** When each call succeeds, and which failure each first obstacle gives. */
module StoreOutcomes {
  import opened Wrappers
  import opened Text
  import opened Paths
  import opened Places
  import opened Naming
  import opened Addressing
  import opened Merge
  import opened Validation
  import opened Reading
  import opened Store
  import opened StoreRuns

  // ---------- Names ----------

  lemma BlankIs(s: string)
    ensures TrimSpace(s) == "" <==> Blank(s)
  {
    if TrimLeft(s) == "" {
      AllSpaces(s);
    } else {
      TrimLeftShape(s);
      FirstStays(TrimLeft(s));
      assert s[|s| - |TrimLeft(s)|] == TrimLeft(s)[0];
    }
  }

  /** What is left of a route without its edges and one leading slash: a root page's name, or a relative path. */
  predicate RouteOk(route: string) {
    var s := TrimPrefix(TrimSpace(route), "/");
    s in ["", "index", "_index"] || (!Contains(s, "\\") && !Contains(s, "..") && !HasPrefix(TrimSpace(s), "/"))
  }

  /** None, or two or three small letters. */
  predicate LangFine(lang: string) {
    var t := TrimSpace(lang);
    Blank(lang) || (2 <= |t| <= 3 && forall i :: 0 <= i < |t| ==> 'a' <= t[i] <= 'z')
  }

  lemma RouteExactly(route: string)
    ensures NormalizeRoute(route).Ok? <==> RouteOk(route)
    ensures NormalizeRoute(route).Err? ==> NormalizeRoute(route).error == BadRoute
  {
    var s := TrimPrefix(TrimSpace(route), "/");
    if Allowed(s) { TrimAllowed(s); }
    if HasPrefix(s, "/") { FirstStays(s); }
  }

  lemma LangExactly(lang: string)
    ensures NormalizeOptionalLang(lang).Ok? <==> LangFine(lang)
    ensures NormalizeOptionalLang(lang) == Err(BadLang) <==> !LangFine(lang)
    ensures NormalizeCreateLang(lang).Ok? <==> LangFine(lang)
    ensures NormalizeCreateLang(lang) == Err(BadLang) <==> !LangFine(lang)
  {
    BlankIs(lang);
  }

  // ---------- Create ----------

  /** The arguments that name the page and fill it. */
  predicate CreateNamed(r: Request)
    requires r.Create?
  {
    !Blank(r.route) && !Blank(r.heading) && !Blank(r.body) && RouteOk(r.route) && LangFine(r.lang)
  }

  /** The keys of the dedicated parameters: the draft in any case, the title, and tags if there are any. */
  function CreateTaken(r: Request): set<string>
    requires r.Create?
  {
    {"title", "draft"} + if r.labels.Some? && r.labels.value != [] then {"tags"} else {}
  }

  ghost predicate CreateAccepted(c: Codec, r: Request)
    requires r.Create?
  {
    && CreateNamed(r) && r.given.Dict?
    && Acceptable(r.given.fields, c.jsonBytes(r.given.fields), false, CreateTaken(r))
  }

  /** The text of the new page. */
  function NewText(c: Codec, r: Request, now: string): string
    requires r.Create? && r.given.Dict?
  {
    RawOf(c, Page(CreateFields(r.heading, r.labels, r.hidden, r.given.fields, now), r.body))
  }

  lemma CreateTakes(r: Request)
    requires r.Create? && !Blank(r.heading)
    ensures forall k :: k in CreateTaken(r) <==> Dedicates(CreateDedicated(r.heading, r.labels, r.hidden), k)
  {
    forall k ensures k in CreateTaken(r) <==> Dedicates(CreateDedicated(r.heading, r.labels, r.hidden), k) {
      CreateDedicates(r.heading, r.labels, r.hidden, k);
    }
  }

  /** The names, the fields and the frontmatter of a create: what is written, or the first obstacle. */
  lemma CreateWriteExactly(c: Codec, r: Request, now: string)
    requires r.Create?
    ensures var o := CreateWrite(c, r, now);
      && (o == Err(Missing("route")) <==> Blank(r.route))
      && (o == Err(Missing("title")) <==> !Blank(r.route) && Blank(r.heading))
      && (o == Err(Missing("content")) <==> !Blank(r.route) && !Blank(r.heading) && Blank(r.body))
      && var filled := !Blank(r.route) && !Blank(r.heading) && !Blank(r.body);
      && (o == Err(BadName(BadRoute)) <==> filled && !RouteOk(r.route))
      && (o == Err(BadName(BadLang)) <==> filled && RouteOk(r.route) && !LangFine(r.lang))
      && (o == Err(NotAnObject) <==> CreateNamed(r) && r.given.NotADict?)
      && (forall why :: o == Err(Refused(why)) <==>
            && CreateNamed(r) && r.given.Dict?
            && IsRefusal(r.given.fields, c.jsonBytes(r.given.fields), false, CreateTaken(r), why))
      && (o.Ok? <==> CreateAccepted(c, r))
      && (o.Ok? ==> o.value.noReplace && Creates(r.route, r.lang) == Some(o.value.rel)
                    && RawOf(c, o.value.page) == NewText(c, r, now))
  {
    BlankIs(r.route);
    BlankIs(r.heading);
    BlankIs(r.body);
    RouteExactly(r.route);
    LangExactly(r.lang);
    if CreateNamed(r) && r.given.Dict? {
      CreateTakes(r);
      RefusedExactly(r.given.fields, c.jsonBytes(r.given.fields), false,
                     CreateDedicated(r.heading, r.labels, r.hidden), CreateTaken(r));
    }
  }

  /**
   * A create of an accepted page succeeds exactly if the page is not too large, its path can be written to, no step
   * fails and there is no file yet; the first of these that is not so is the failure.
   */
  lemma CreateExactly(c: Codec, files: Files, limit: nat, r: Request, now: string, f: Faults)
    requires r.Create?
    ensures var o, w := Outcome(c, files, limit, r, now, f), CreateWrite(c, r, now);
      && (!CreateAccepted(c, r) ==> w.Err? && o == Err(w.error))
      && (CreateAccepted(c, r) ==>
            var raw, place := NewText(c, r, now), CreatesAt(r.route, r.lang);
            var large := c.textBytes(raw) > limit;
            && (large ==> o == Err(TooBig(c.textBytes(raw))))
            && (!large && place.None? ==> o == Err(NoPlace))
            && (!large && place.Some? && f.write ==> o == Err(Broken))
            && (!large && place.Some? && !f.write && place.value in files ==> o == Err(Exists))
            && (!large && place.Some? && !f.write && place.value !in files ==>
                  o == Ok((Creates(r.route, r.lang).value, files[place.value := raw]))))
  {
    CreateWriteExactly(c, r, now);
  }

  // ---------- Looking a page up ----------

  /** The name a mutation passes on to the reader, which normalizes it again, is a name to the reader too. */
  predicate SecondOk(route: string)
    requires RouteOk(route)
  {
    RouteExactly(route);
    var (name, root) := NormalizeRoute(route).value;
    root || TrimRight(name) in ["", "index", "_index"] || ReadPlace(name).Some?
  }

  lemma SecondExactly(route: string)
    requires RouteOk(route)
    ensures NormalizeRoute(route).Ok? && var (name, root) := NormalizeRoute(route).value;
      && (NormalizeRoute(MutationGetRoute(root, name)).Ok? <==> SecondOk(route))
      && (NormalizeRoute(MutationGetRoute(root, name)) == Err(BadRoute) <==> !SecondOk(route))
  {
    RouteExactly(route);
    NormalizedName(route);
    var (name, root) := NormalizeRoute(route).value;
    if root {
      assert Trimmed("_index");
      TrimmedFixed("_index");
    } else {
      RenamedDir(name);
    }
  }

  predicate Named(route: string, lang: string) {
    !Blank(route) && RouteOk(route) && LangFine(lang) && SecondOk(route)
  }

  /** What a reader gets: a bad route or language, no page, a page too large, or the page the path comes to. */
  lemma GetExactly(c: Codec, files: Files, limit: nat, route: string, lang: string)
    ensures var o, rel := Get(c, files, limit, route, lang), Selects(route, lang, files.Keys);
      var place := PlaceRead(rel);
      && (o == Err(BadName(BadRoute)) <==> !RouteOk(route))
      && (o == Err(BadName(BadLang)) <==> RouteOk(route) && !LangFine(lang))
      && (o == Err(NotFound) <==> RouteOk(route) && LangFine(lang) && rel.None?)
      && (rel.Some? ==>
            && place.Some? && place.value in files && var raw := files[place.value];
            && (c.textBytes(raw) > limit ==> o == Err(TooBig(c.textBytes(raw))))
            && (c.textBytes(raw) <= limit ==> o == Ok((rel.value, View(c, raw)))))
  {
    RouteExactly(route);
    LangExactly(lang);
  }

  /** The path the look-up selects, and what is in the file it comes to. */
  predicate IsFound(route: string, lang: string, files: Files, rel: string, raw: string) {
    && Named(route, lang) && Addresses(route, lang, files.Keys) == Some(rel)
    && ReadPlace(rel).Some? && ReadPlace(rel).value in files && files[ReadPlace(rel).value] == raw
  }

  lemma LookupExactly(c: Codec, files: Files, limit: nat, route: string, lang: string)
    ensures var o := Lookup(c, files, limit, route, lang);
      && (o == Err(Missing("route")) <==> Blank(route))
      && (o == Err(BadName(BadRoute)) <==>
            !Blank(route) && (!RouteOk(route) || (LangFine(lang) && !SecondOk(route))))
      && (o == Err(BadName(BadLang)) <==> !Blank(route) && RouteOk(route) && !LangFine(lang))
      && (o == Err(NotFound) <==> Named(route, lang) && Addresses(route, lang, files.Keys).None?)
      && (forall n :: o == Err(TooBig(n)) <==>
            exists rel, raw :: IsFound(route, lang, files, rel, raw) && n == c.textBytes(raw) > limit)
      && (o.Ok? <==> exists rel, raw :: IsFound(route, lang, files, rel, raw) && c.textBytes(raw) <= limit)
      && (o.Ok? ==> var (rel, page) := o.value;
                    exists raw :: IsFound(route, lang, files, rel, raw) && page == View(c, raw))
  {
    BlankIs(route);
    RouteExactly(route);
    LangExactly(lang);
    if RouteOk(route) { SecondExactly(route); }
    if Named(route, lang) {
      AddressesByReader(route, lang, files.Keys);
      TrimSpaceTrims(lang);
      var rel := Addresses(route, lang, files.Keys);
      if rel.Some? { assert IsFound(route, lang, files, rel.value, files[ReadPlace(rel.value).value]); }
    }
  }

  // ---------- Update and delete ----------

  /** The text of a page that has been found, after the update. */
  function UpdatedText(c: Codec, was: Page, r: Request, now: string): string
    requires r.Update? && r.changes.Dict?
  {
    RawOf(c, Page(UpdateFields(was.fm, r.title, r.tags, r.draft, r.changes.fields, now),
                  if r.content.Some? then r.content.value else was.content))
  }

  const TAKEN: set<string> := {"title", "tags", "draft"}

  /** The path of the page found is opened: it leads somewhere, and there is a file. */
  predicate OpensAt(files: Files, rel: string) {
    OpenPlace(rel).Some? && OpenPlace(rel).value in files
  }

  /** The failure of opening it. */
  predicate IsOpenFailure(files: Files, rel: string, broken: bool, e: Failure) {
    || (broken && e == Broken)
    || (!broken && OpenPlace(rel).None? && e == NoPlace)
    || (!broken && OpenPlace(rel).Some? && OpenPlace(rel).value !in files && e == NotThere)
  }

  lemma UpdateTakes(r: Request)
    requires r.Update?
    ensures forall k :: k in TAKEN <==> Dedicates(UpdateDedicated(r.title, r.tags, r.draft), k)
  {
    forall k ensures k in TAKEN <==> Dedicates(UpdateDedicated(r.title, r.tags, r.draft), k) {
      UpdateDedicates(r.title, r.tags, r.draft, k);
    }
  }

  /** An update of a page that is found: the first obstacle is the failure, or the page is replaced. */
  lemma UpdateExactly(c: Codec, files: Files, limit: nat, r: Request, now: string, f: Faults)
    requires r.Update?
    ensures var o, found := Outcome(c, files, limit, r, now, f), Lookup(c, files, limit, r.route, r.lang);
      && (found.Err? ==> o == Err(found.error))
      && (found.Ok? && r.changes.NotADict? ==> o == Err(NotAnObject))
      && (found.Ok? && r.changes.Dict? ==>
            var (rel, was), fm := found.value, r.changes.fields;
            && (forall why :: o == Err(Refused(why)) <==> IsRefusal(fm, c.jsonBytes(fm), true, TAKEN, why))
            && (Acceptable(fm, c.jsonBytes(fm), true, TAKEN) ==>
                  var raw, place := UpdatedText(c, was, r, now), WritePlace(rel);
                  var open, large := !f.open && OpensAt(files, rel), c.textBytes(raw) > limit;
                  && (forall e :: IsOpenFailure(files, rel, f.open, e) ==> o == Err(e))
                  && (open && large ==> o == Err(TooBig(c.textBytes(raw))))
                  && (open && !large && place.None? ==> o == Err(NoPlace))
                  && (open && !large && place.Some? && f.write ==> o == Err(Broken))
                  && (open && !large && place.Some? && !f.write ==> o == Ok((rel, files[place.value := raw])))))
  {
    if r.changes.Dict? {
      UpdateTakes(r);
      RefusedExactly(r.changes.fields, c.jsonBytes(r.changes.fields), true,
                     UpdateDedicated(r.title, r.tags, r.draft), TAKEN);
    }
  }

  /** A delete of a page that is found: the first obstacle is the failure, or the file is gone. */
  lemma DeleteExactly(c: Codec, files: Files, limit: nat, r: Request, now: string, f: Faults)
    requires r.Delete?
    ensures var o, found := Outcome(c, files, limit, r, now, f), Lookup(c, files, limit, r.route, r.lang);
      && (found.Err? ==> o == Err(found.error))
      && (found.Ok? ==>
            var rel := found.value.0;
            var place, open := WritePlace(rel), !f.open && OpensAt(files, rel);
            && (forall e :: IsOpenFailure(files, rel, f.open, e) ==> o == Err(e))
            && (open && f.write ==> o == Err(Broken))
            && (open && !f.write && place.None? ==> o == Err(NoPlace))
            && (open && !f.write && place.Some? && place.value !in files ==> o == Err(NotThere))
            && (open && !f.write && place.Some? && place.value in files ==> o == Ok((rel, files - {place.value}))))
  {
  }

  /** A create may give a date: it is refused for other reasons only. */
  lemma DateMayBeGiven(c: Codec, r: Request)
    requires r.Create? && CreateNamed(r) && r.given.Dict? && r.given.fields.Keys == {"date"}
    requires r.given.fields["date"].Str? && c.jsonBytes(r.given.fields) <= 10240
    ensures CreateAccepted(c, r)
  {
    var fm := r.given.fields;
    forall path ensures PlaceFine(fm, false, path) { OneString(fm, path); }
  }

  lemma OneString(fm: Fields, path: seq<Step>)
    requires fm.Keys == {"date"} && fm["date"].Str?
    ensures PlaceFine(fm, false, path)
  {
    if |path| > 1 && path[0] == Key("date") { assert NodeAt(fm["date"], path[1..]) == None; }
  }
}
