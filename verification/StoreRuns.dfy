/** What the page store keeps over every run of calls. */
module StoreRuns {
  import opened Wrappers
  import opened Text
  import opened Paths
  import opened Naming
  import opened Addressing
  import opened Merge
  import opened Validation
  import opened Reading
  import opened Store
  import opened StoreTheorems

  // ---------- What a call writes ----------

  function GivenOf(r: Request): Given {
    match r
    case Create(_, _, _, _, _, _, given) => given
    case Update(_, _, _, _, _, _, changes) => changes
    case Delete(_, _) => Dict(map[])
  }

  /** What a call would write, if it gets that far. */
  function Draft(c: Codec, files: Files, limit: nat, r: Request, now: string): Option<Write> {
    if r.Delete? then None
    else
      var w := if r.Create? then CreateWrite(c, r, now) else UpdateWrite(c, files, limit, r, now);
      if w.Ok? then Some(w.value) else None
  }

  /** A page small enough to be read. */
  predicate Fits(c: Codec, files: Files, limit: nat, place: string) {
    place in files && c.textBytes(files[place]) <= limit
  }

  lemma GetSelects(c: Codec, files: Files, limit: nat, route: string, lang: string)
    ensures var got, rel := Get(c, files, limit, route, lang), Selects(route, lang, files.Keys);
      && (got.Ok? <==> rel.Some? && Fits(c, files, limit, PlaceRead(rel).value))
      && (got.Ok? ==> got.value == (rel.value, View(c, files[PlaceRead(rel).value])))
  {
  }

  lemma LookupAddresses(c: Codec, files: Files, limit: nat, route: string, lang: string)
    requires TrimSpace(route) != ""
    ensures var found, rel := Lookup(c, files, limit, route, lang), Addresses(route, lang, files.Keys);
      && (found.Ok? <==> rel.Some? && Fits(c, files, limit, PlaceRead(rel).value))
      && (found.Ok? ==> found.value == (rel.value, View(c, files[PlaceRead(rel).value])))
  {
    if NormalizeRoute(route).Ok? && NormalizeOptionalLang(lang).Ok? {
      var (name, root) := NormalizeRoute(route).value;
      GetSelects(c, files, limit, MutationGetRoute(root, name), NormalizeOptionalLang(lang).value);
    }
  }

  lemma LookupFinds(c: Codec, s: Files, limit: nat, route: string, lang: string)
    requires Lookup(c, s, limit, route, lang).Ok?
    ensures var found := Lookup(c, s, limit, route, lang).value; var source := ReadPlace(found.0);
      && Addresses(route, lang, s.Keys) == Some(found.0)
      && source.Some? && source.value in s && found.1 == View(c, s[source.value])
  {
    LookupAddresses(c, s, limit, route, lang);
  }

  /** An update that comes to writing: what it found, and what it was given. */
  lemma UpdateParts(c: Codec, s: Files, limit: nat, r: Request, now: string)
    requires r.Update? && UpdateWrite(c, s, limit, r, now).Ok?
    ensures var w := UpdateWrite(c, s, limit, r, now).value; var source := ReadPlace(w.rel);
      && Addresses(r.route, r.lang, s.Keys) == Some(w.rel)
      && source.Some? && source.value in s && !w.noReplace && r.changes.Dict? && var fm := r.changes.fields;
      && w.page.fm == UpdateFields(View(c, s[source.value]).fm, r.title, r.tags, r.draft, fm, now)
      && ValidateFrontmatter(fm, c.jsonBytes(fm), true, UpdateDedicated(r.title, r.tags, r.draft)).Ok?
      && ValidateFrontmatter(fm, c.jsonBytes(fm), true, UpdateDedicated(r.title, r.tags, r.draft)).value == fm
  {
    LookupFinds(c, s, limit, r.route, r.lang);
  }

  /** The page an update writes, as it is read: nothing odd is new in it, and the date is that of the page found. */
  lemma UpdatedPage(c: Codec, s: Files, limit: nat, r: Request, now: string)
    requires r.Update? && UpdateWrite(c, s, limit, r, now).Ok?
    ensures var w := UpdateWrite(c, s, limit, r, now).value; var source := ReadPlace(w.rel);
      && source.Some? && source.value in s && var was, fm := View(c, s[source.value]).fm, FieldsAsRead(w.page.fm);
      && (GivenOf(r).Dict? && ListsShallow(GivenOf(r).fields) ==> Inherits(was, fm))
      && Field(fm, "date") == Field(was, "date")
  {
    UpdateParts(c, s, limit, r, now);
    var w, fm := UpdateWrite(c, s, limit, r, now).value, r.changes.fields;
    var raw := s[ReadPlace(w.rel).value];
    var was := View(c, raw).fm;
    ViewedAsRead(c, raw);
    UpdatedFields(was, r.title, r.tags, r.draft, fm, c.jsonBytes(fm), now);
    FieldAsRead(w.page.fm, "date");
    FieldAsRead(was, "date");
    AcceptedTame(fm, c.jsonBytes(fm), true, UpdateDedicated(r.title, r.tags, r.draft));
    if ListsShallow(fm) { UpdateReadInherits(was, r.title, r.tags, r.draft, fm, now); }
  }

  lemma UpdateReadInherits(was: Fields, title: Option<string>, tags: Option<seq<string>>, draft: Option<bool>,
                           fm: Fields, now: string)
    requires Tame(fm) && ListsShallow(fm) && FieldsAsRead(was) == was
    ensures Inherits(was, FieldsAsRead(UpdateFields(was, title, tags, draft, fm, now)))
  {
    UpdateInherits(was, title, tags, draft, fm, now);
    ReadHasNone(was);
    OverriddenShallow(was, title, tags, draft);
    DefaultShallow(fm, "lastmod", now);
    MergeShallow(Overridden(was, title, tags, draft), WithDefault(fm, "lastmod", Str(now)));
    ReadInherits(was, UpdateFields(was, title, tags, draft, fm, now));
  }

  lemma CreatedPage(c: Codec, r: Request, now: string)
    requires r.Create? && CreateWrite(c, r, now).Ok?
    ensures var fm := FieldsAsRead(CreateWrite(c, r, now).value.page.fm);
      && "date" in fm && "title" in fm
      && (GivenOf(r).Dict? && ListsShallow(GivenOf(r).fields) ==> Inherits(map[], fm))
  {
    CreatedAsRead(r.heading, r.labels, r.hidden, r.given.fields, c.jsonBytes(r.given.fields), now);
  }

  lemma CreatedAsRead(title: string, tags: Option<seq<string>>, draft: Option<bool>, fm: Fields, bytes: nat,
      now: string)
    requires title != "" && ValidateFrontmatter(fm, bytes, false, CreateDedicated(title, tags, draft)).Ok?
    ensures var read := FieldsAsRead(CreateFields(title, tags, draft, fm, now));
      "date" in read && "title" in read && (ListsShallow(fm) ==> Inherits(map[], read))
  {
    var final := CreateFields(title, tags, draft, fm, now);
    CreatedFields(title, tags, draft, fm, bytes, now);
    AcceptedTame(fm, bytes, false, CreateDedicated(title, tags, draft));
    if ListsShallow(fm) { CreateReadInherits(title, tags, draft, fm, now); }
    assert Field(final, "title").Some? && Field(final, "date").Some?;
  }

  lemma CreateReadInherits(title: string, tags: Option<seq<string>>, draft: Option<bool>, fm: Fields, now: string)
    requires Tame(fm) && ListsShallow(fm)
    ensures Inherits(map[], FieldsAsRead(CreateFields(title, tags, draft, fm, now)))
  {
    var dated := WithDefault(fm, "date", Str(now));
    CreateInherits(title, tags, draft, fm, now);
    assert FieldsAsRead(map[]) == map[];
    ReadHasNone(map[]);
    OverriddenShallow(map[], Some(title), tags, draft);
    DefaultShallow(fm, "date", now);
    DefaultShallow(dated, "lastmod", now);
    MergeShallow(Overridden(map[], Some(title), tags, draft), WithDefault(dated, "lastmod", Str(now)));
    ReadInherits(map[], CreateFields(title, tags, draft, fm, now));
  }

  // ---------- Runs ----------

  datatype Call = Call(r: Request, now: string, f: Faults)

  /** The files after a call, whether it succeeds or not. */
  function After(c: Codec, limit: nat, s: Files, call: Call): Files {
    match Outcome(c, s, limit, call.r, call.now, call.f)
    case Ok(done) => done.1
    case Err(_) => s
  }

  /** The file the call writes a page to, if it does. */
  function Writes(c: Codec, limit: nat, s: Files, call: Call): Option<string> {
    if Outcome(c, s, limit, call.r, call.now, call.f).Err? then None
    else match Draft(c, s, limit, call.r, call.now)
      case Some(w) => WritePlace(w.rel)
      case None => None
  }

  /** If the call writes to this file: the YAML reads back, and an update goes by a settled name. */
  predicate WritesWell(c: Codec, limit: nat, s: Files, call: Call, f: string) {
    Writes(c, limit, s, call) == Some(f) ==>
      && Faithful(c, Draft(c, s, limit, call.r, call.now).value.page.fm)
      && (call.r.Update? ==> Settled(call.r.route))
  }

  /** If it does: the frontmatter given is accepted by depth also when read back. */
  ghost predicate GivesShallow(c: Codec, limit: nat, s: Files, call: Call, f: string) {
    Writes(c, limit, s, call) == Some(f) ==> GivenOf(call.r).Dict? && ListsShallow(GivenOf(call.r).fields)
  }

  predicate StepAt(c: Codec, limit: nat, run: seq<Files>, calls: seq<Call>, i: int) {
    0 <= i < |calls| && i + 1 < |run| && run[i + 1] == After(c, limit, run[i], calls[i])
  }

  /** The files at first and after each of the calls. */
  predicate IsRun(c: Codec, limit: nat, run: seq<Files>, calls: seq<Call>) {
    |run| == |calls| + 1 && forall i :: 0 <= i < |calls| ==> StepAt(c, limit, run, calls, i)
  }

  function FieldsIn(c: Codec, s: Files, f: string): Fields {
    if f in s then View(c, s[f]).fm else map[]
  }

  /** A call leaves the files alone, removes one, or puts down the page it drafted. */
  lemma CallEffect(c: Codec, limit: nat, s: Files, call: Call)
    ensures var s', r, f := After(c, limit, s, call), call.r, Writes(c, limit, s, call);
      if f.Some? then !r.Delete? && s' == s[f.value := RawOf(c, Draft(c, s, limit, r, call.now).value.page)]
      else s' == s || exists g :: g in s && s' == s - {g}
  {
    if call.r.Delete? && Outcome(c, s, limit, call.r, call.now, call.f).Ok? {
      var g := DeleteEffect(c, limit, s, call);
    }
  }

  lemma DeleteEffect(c: Codec, limit: nat, s: Files, call: Call) returns (g: string)
    requires call.r.Delete? && Outcome(c, s, limit, call.r, call.now, call.f).Ok?
    ensures g in s && After(c, limit, s, call) == s - {g}
  {
    g := WritePlace(Outcome(c, s, limit, call.r, call.now, call.f).value.0).value;
  }

  lemma UpdateWrites(c: Codec, limit: nat, s: Files, call: Call)
    requires call.r.Update? && Outcome(c, s, limit, call.r, call.now, call.f).Ok?
    ensures Writes(c, limit, s, call) == PlaceWritten(Addresses(call.r.route, call.r.lang, s.Keys))
  {
    UpdateParts(c, s, limit, call.r, call.now);
  }

  /** A create writes to a new file; an update by a settled name to the one it has read. */
  lemma WritesWhere(c: Codec, limit: nat, s: Files, call: Call)
    requires Writes(c, limit, s, call).Some?
    ensures var f := Writes(c, limit, s, call).value;
      && (call.r.Create? ==> f !in s)
      && (call.r.Update? && Settled(call.r.route) ==>
            f in s && ReadPlace(UpdateWrite(c, s, limit, call.r, call.now).value.rel) == Some(f))
  {
    if call.r.Update? {
      UpdateParts(c, s, limit, call.r, call.now);
      UpdateWrites(c, limit, s, call);
      ReadsWhatItTouches(call.r.route, call.r.lang, s.Keys);
    }
  }

  /** One page over one step: untouched, newly created, or updated in place. */
  lemma PageStep(c: Codec, limit: nat, s: Files, call: Call, f: string)
    requires WritesWell(c, limit, s, call, f) && f in After(c, limit, s, call)
    ensures var s' := After(c, limit, s, call);
      && (f in s ==> Field(FieldsIn(c, s', f), "date") == Field(FieldsIn(c, s, f), "date"))
      && (f !in s ==> call.r.Create? && "date" in FieldsIn(c, s', f) && "title" in FieldsIn(c, s', f))
      && (GivesShallow(c, limit, s, call, f) ==> Inherits(FieldsIn(c, s, f), FieldsIn(c, s', f)))
  {
    CallEffect(c, limit, s, call);
    if Writes(c, limit, s, call) == Some(f) {
      PageWritten(c, limit, s, call, f);
    } else {
      SamePage(FieldsIn(c, s, f));
    }
  }

  lemma SamePage(fm: Fields)
    ensures Inherits(fm, fm)
  {
  }

  lemma PageWritten(c: Codec, limit: nat, s: Files, call: Call, f: string)
    requires WritesWell(c, limit, s, call, f) && Writes(c, limit, s, call) == Some(f)
    ensures var fm := FieldsIn(c, After(c, limit, s, call), f);
      && (f in s ==> Field(fm, "date") == Field(FieldsIn(c, s, f), "date"))
      && (f !in s ==> call.r.Create? && "date" in fm && "title" in fm)
      && (GivesShallow(c, limit, s, call, f) ==> Inherits(FieldsIn(c, s, f), fm))
  {
    CallEffect(c, limit, s, call);
    WritesWhere(c, limit, s, call);
    ReadBack(c, Draft(c, s, limit, call.r, call.now).value.page);
    if call.r.Create? {
      CreatedPage(c, call.r, call.now);
    } else {
      UpdatedPage(c, s, limit, call.r, call.now);
    }
  }

  lemma RunStep(c: Codec, limit: nat, run: seq<Files>, calls: seq<Call>, i: nat, f: string)
    requires IsRun(c, limit, run, calls) && i < |calls| && f in run[i + 1] && WritesWell(c, limit, run[i], calls[i], f)
    ensures var was, fm := FieldsIn(c, run[i], f), FieldsIn(c, run[i + 1], f);
      && (f in run[i] ==> Field(fm, "date") == Field(was, "date"))
      && (f !in run[i] ==> calls[i].r.Create? && "date" in fm && "title" in fm)
      && (GivesShallow(c, limit, run[i], calls[i], f) ==> Inherits(was, fm))
  {
    assert StepAt(c, limit, run, calls, i);
    PageStep(c, limit, run[i], calls[i], f);
  }

  /** From its creation until its deletion a page keeps its date, whatever is called in between. */
  lemma {:induction false} DateNeverChanges(c: Codec, limit: nat, run: seq<Files>, calls: seq<Call>, i: nat, j: nat,
      f: string)
    requires IsRun(c, limit, run, calls) && i <= j < |run| && forall m :: i <= m <= j ==> f in run[m]
    requires forall m :: i <= m < j ==> WritesWell(c, limit, run[m], calls[m], f)
    ensures Field(View(c, run[j][f]).fm, "date") == Field(View(c, run[i][f]).fm, "date")
  {
    if i < j {
      DateNeverChanges(c, limit, run, calls, i, j - 1, f);
      RunStep(c, limit, run, calls, j - 1, f);
    }
  }

  /** A page that appears during the run has been created, with a date and a title. */
  lemma BornDated(c: Codec, limit: nat, run: seq<Files>, calls: seq<Call>, i: nat, f: string)
    requires IsRun(c, limit, run, calls) && i < |calls| && f !in run[i] && f in run[i + 1]
    requires WritesWell(c, limit, run[i], calls[i], f)
    ensures calls[i].r.Create? && "date" in View(c, run[i + 1][f]).fm && "title" in View(c, run[i + 1][f]).fm
  {
    RunStep(c, limit, run, calls, i, f);
  }

  /** The step, if it writes to this file, does so in a way that reads back and is accepted by depth. */
  ghost predicate StepTidy(c: Codec, limit: nat, run: seq<Files>, calls: seq<Call>, i: nat, f: string)
    requires i < |run| && i < |calls|
  {
    WritesWell(c, limit, run[i], calls[i], f) && GivesShallow(c, limit, run[i], calls[i], f)
  }

  /** The file before the step, empty if it was not there, has all that is odd in it after. */
  lemma StepInherits(c: Codec, limit: nat, run: seq<Files>, calls: seq<Call>, i: nat, f: string)
    requires IsRun(c, limit, run, calls) && i < |calls| && f in run[i + 1] && StepTidy(c, limit, run, calls, i, f)
    ensures Inherits(FieldsIn(c, run[i], f), FieldsIn(c, run[i + 1], f))
  {
    RunStep(c, limit, run, calls, i, f);
  }

  /** Every one of these steps is. */
  ghost predicate TidyBefore(c: Codec, limit: nat, run: seq<Files>, calls: seq<Call>, n: nat, f: string)
    requires n <= |calls| && n < |run|
  {
    forall i :: 0 <= i < n ==> StepTidy(c, limit, run, calls, i, f)
  }

  lemma OddStep(c: Codec, limit: nat, run: seq<Files>, calls: seq<Call>, n: nat, i: nat, f: string, first: Fields)
    requires IsRun(c, limit, run, calls) && i < n < |run| && f in run[i + 1] && TidyBefore(c, limit, run, calls, n, f)
    requires f in run[i] ==> Inherits(first, FieldsIn(c, run[i], f))
    ensures Inherits(first, FieldsIn(c, run[i + 1], f))
  {
    StepInherits(c, limit, run, calls, i, f);
    Inherited(first, FieldsIn(c, run[i], f), FieldsIn(c, run[i + 1], f), f in run[i]);
  }

  lemma {:induction false} OddUpTo(c: Codec, limit: nat, run: seq<Files>, calls: seq<Call>, n: nat, j: nat, f: string)
    requires IsRun(c, limit, run, calls) && j <= n < |run| && f in run[j] && TidyBefore(c, limit, run, calls, n, f)
    ensures Inherits(FieldsIn(c, run[0], f), FieldsIn(c, run[j], f))
  {
    if j > 0 {
      if f in run[j - 1] { OddUpTo(c, limit, run, calls, n, j - 1, f); }
      OddStep(c, limit, run, calls, n, j - 1, f, FieldsIn(c, run[0], f));
    } else {
      SamePage(FieldsIn(c, run[0], f));
    }
  }

  /**
   * No run introduces a forbidden key, a value nested deeper than three, or a value of a foreign type: whatever
   * of that kind a page holds stood at the same place in the same file when the run began.
   */
  lemma NothingOddIntroduced(c: Codec, limit: nat, run: seq<Files>, calls: seq<Call>, j: nat, f: string)
    requires IsRun(c, limit, run, calls) && j < |run| && f in run[j] && TidyBefore(c, limit, run, calls, j, f)
    ensures Inherits(FieldsIn(c, run[0], f), FieldsIn(c, run[j], f))
  {
    OddUpTo(c, limit, run, calls, j, j, f);
  }

  lemma Inherited(first: Fields, was: Fields, now: Fields, there: bool)
    requires Inherits(was, now) && if there then Inherits(first, was) else was == map[]
    ensures Inherits(first, now)
  {
    if there { InheritsTwice(first, was, now); } else { NothingInherits(first, now); }
  }

  /** What inherits from nothing has nothing odd, so it inherits from anything. */
  lemma NothingInherits(was: Fields, now: Fields)
    requires Inherits(map[], now)
    ensures Inherits(was, now)
  {
    forall path ensures !Odd(now, path) {
      assert NodeAt(Obj(map[]), path).Some? ==> path == [];
    }
  }
}
