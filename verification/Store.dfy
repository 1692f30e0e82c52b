/** The page store: Create, Update and Delete over the files of one content root. */
module Store {
  import opened Wrappers
  import opened Text
  import opened Paths
  import opened Naming
  import opened Merge
  import opened Validation
  import opened Render
  import opened Reading
  import opened FileSteps

  /** The engines the store calls: YAML both ways, and two lengths in bytes. */
  datatype Codec = Codec(marshal: Fields -> string, parse: string -> Fields, textBytes: string -> nat,
      jsonBytes: Fields -> nat)

  /** Frontmatter as given, after a JSON string has been decoded; anything that is not an object is refused. */
  datatype Given = Dict(fields: Fields) | NotADict

  datatype Failure =
    | Missing(field: string) | BadName(name: NameError) | NotAnObject | Refused(why: Refusal)
    | TooBig(bytes: nat) | NotFound | NoPlace | NotThere | Exists | Broken

  datatype Request =
    | Create(route: string, lang: string, heading: string, body: string,
             labels: Option<seq<string>>, hidden: Option<bool>, given: Given)
    | Update(route: string, lang: string, title: Option<string>, content: Option<string>, tags: Option<seq<string>>,
             draft: Option<bool>, changes: Given)
    | Delete(route: string, lang: string)

  datatype Page = Page(fm: Fields, content: string)

  type Files = map<string, string>

  /** The page a file parses to; the decoder makes general lists of all lists. */
  function View(c: Codec, raw: string): Page {
    var parts := Split(raw);
    Page(if parts.yaml.Some? then FieldsAsRead(c.parse(parts.yaml.value)) else map[], parts.content)
  }

  const DEFAULT_LIMIT: nat := 0x10_0000

  /** One megabyte, unless another limit is configured. */
  function Limit(configured: int): (r: nat)
    ensures configured > 0 ==> r == configured
    ensures configured <= 0 ==> r == 1024 * 1024
  {
    if configured <= 0 then DEFAULT_LIMIT else configured
  }

  // ---------- Reading ----------

  /** The path a reader selects, and the page in the file it comes to. */
  function Get(c: Codec, files: Files, limit: nat, route: string, lang: string): Result<(string, Page), Failure> {
    match NormalizeRoute(route)
    case Err(e) => Err(BadName(e))
    case Ok(named) =>
      match NormalizeOptionalLang(lang)
      case Err(e) => Err(BadName(e))
      case Ok(l) =>
        match FindPage(named.0, l, files.Keys)
        case None => Err(NotFound)
        case Some(rel) =>
          var raw := files[ReadPlace(rel).value];
          if c.textBytes(raw) > limit then Err(TooBig(c.textBytes(raw))) else Ok((rel, View(c, raw)))
  }

  /** How a mutation looks up its page: the route is normalized twice, once by each side. */
  function Lookup(c: Codec, files: Files, limit: nat, route: string, lang: string): Result<(string, Page), Failure> {
    if TrimSpace(route) == "" then Err(Missing("route"))
    else match NormalizeRoute(route)
      case Err(e) => Err(BadName(e))
      case Ok(named) =>
        match NormalizeOptionalLang(lang)
        case Err(e) => Err(BadName(e))
        case Ok(l) => Get(c, files, limit, MutationGetRoute(named.1, named.0), l)
  }

  // ---------- What is written ----------

  function Validated(c: Codec, given: Given, isUpdate: bool,
      dedicated: map<string, Dedicated>): Result<Fields, Failure>
  {
    if given.NotADict? then Err(NotAnObject)
    else match ValidateFrontmatter(given.fields, c.jsonBytes(given.fields), isUpdate, dedicated)
      case Err(e) => Err(Refused(e))
      case Ok(fm) => Ok(fm)
  }

  function WithDefault(fm: Fields, k: string, v: Json): Fields {
    if k in fm then fm else fm[k := v]
  }

  /** The frontmatter of a new page. */
  function CreateFields(title: string, tags: Option<seq<string>>, draft: Option<bool>, fm: Fields,
      now: string): Fields
  {
    DeepMerge(Overridden(map[], Some(title), tags, draft),
              WithDefault(WithDefault(fm, "date", Str(now)), "lastmod", Str(now)))
  }

  function Set(fm: Fields, k: string, v: Option<Json>): Fields {
    if v.Some? then fm[k := v.value] else fm
  }

  /** The dedicated parameters laid over a copy of the old frontmatter. */
  function Overridden(fm: Fields, title: Option<string>, tags: Option<seq<string>>, draft: Option<bool>): Fields {
    Set(Set(Set(fm, "title", if title.Some? then Some(Str(title.value)) else None),
            "tags", if tags.Some? then Some(Strs(tags.value)) else None),
        "draft", if draft.Some? then Some(Bool(draft.value)) else None)
  }

  function UpdateFields(was: Fields, title: Option<string>, tags: Option<seq<string>>, draft: Option<bool>,
      fm: Fields, now: string): Fields
  {
    DeepMerge(Overridden(was, title, tags, draft), WithDefault(fm, "lastmod", Str(now)))
  }

  /** A page about to be written: under which path, with what, and whether it may replace a file. */
  datatype Write = Write(rel: string, page: Page, noReplace: bool)

  function CreateWrite(c: Codec, r: Request, now: string): Result<Write, Failure>
    requires r.Create?
  {
    if TrimSpace(r.route) == "" then Err(Missing("route"))
    else if TrimSpace(r.heading) == "" then Err(Missing("title"))
    else if TrimSpace(r.body) == "" then Err(Missing("content"))
    else match NormalizeRoute(r.route)
      case Err(e) => Err(BadName(e))
      case Ok(named) =>
        match NormalizeCreateLang(r.lang)
        case Err(e) => Err(BadName(e))
        case Ok(l) =>
          match Validated(c, r.given, false, CreateDedicated(r.heading, r.labels, r.hidden))
          case Err(e) => Err(e)
          case Ok(fm) =>
            Ok(Write(PageRelativePath(named.1, named.0, l),
                     Page(CreateFields(r.heading, r.labels, r.hidden, fm, now), r.body), true))
  }

  function UpdateWrite(c: Codec, files: Files, limit: nat, r: Request, now: string): Result<Write, Failure>
    requires r.Update?
  {
    match Lookup(c, files, limit, r.route, r.lang)
    case Err(e) => Err(e)
    case Ok((rel, page)) =>
      match Validated(c, r.changes, true, UpdateDedicated(r.title, r.tags, r.draft))
      case Err(e) => Err(e)
      case Ok(fm) =>
        Ok(Write(rel, Page(UpdateFields(page.fm, r.title, r.tags, r.draft, fm, now),
                           if r.content.Some? then r.content.value else page.content), false))
  }

  function RawOf(c: Codec, page: Page): string {
    Rendered(c.marshal(page.fm), page.content)
  }

  /** Which file operations fail: opening the page that is there, or a step of putting down the new state. */
  datatype Faults = Faults(open: bool, write: bool)

  const FINE := Faults(false, false)

  /** The replacement of a file as one step; a failing file operation leaves the files as they were. */
  function Replaced(files: Files, place: string, raw: string, noReplace: bool, broken: bool): Result<Files, Failure> {
    if broken then Err(Broken)
    else if noReplace && place in files then Err(Exists)
    else Ok(files[place := raw])
  }

  /** The size limit, then the directories, then the replacement of the file they lead to. */
  function Written(c: Codec, files: Files, limit: nat, w: Write, broken: bool): Result<Files, Failure> {
    var raw := RawOf(c, w.page);
    if c.textBytes(raw) > limit then Err(TooBig(c.textBytes(raw)))
    else match WritePlace(w.rel)
      case None => Err(NoPlace)
      case Some(place) => Replaced(files, place, raw, w.noReplace, broken)
  }

  /** Opening an existing file, which is not always the one that was looked up: its name in the files. */
  function Opened(files: Files, rel: string, broken: bool): Result<string, Failure> {
    if broken then Err(Broken)
    else match OpenPlace(rel)
      case None => Err(NoPlace)
      case Some(place) => if place in files then Ok(place) else Err(NotThere)
  }

  /** Removing a file, once another name of it has been opened and copied. */
  function Removed(files: Files, rel: string, f: Faults): Result<Files, Failure> {
    match Opened(files, rel, f.open)
    case Err(e) => Err(e)
    case Ok(_) =>
      if f.write then Err(Broken)
      else match WritePlace(rel)
        case None => Err(NoPlace)
        case Some(place) => if place in files then Ok(files - {place}) else Err(NotThere)
  }

  /** Everything a call can do: the path it prints and the files afterwards, or why it failed. */
  function Outcome(c: Codec, files: Files, limit: nat, r: Request, now: string,
      f: Faults): Result<(string, Files), Failure>
  {
    match r
    case Delete(route, lang) =>
      (match Lookup(c, files, limit, route, lang)
       case Err(e) => Err(e)
       case Ok((rel, _)) => Printed(rel, Removed(files, rel, f)))
    case Create(_, _, _, _, _, _, _) =>
      (match CreateWrite(c, r, now)
       case Err(e) => Err(e)
       case Ok(w) => Printed(w.rel, Written(c, files, limit, w, f.write)))
    case Update(_, _, _, _, _, _, _) =>
      match UpdateWrite(c, files, limit, r, now)
      case Err(e) => Err(e)
      case Ok(w) =>
        match Opened(files, w.rel, f.open)
        case Err(e) => Err(e)
        case Ok(_) => Printed(w.rel, Written(c, files, limit, w, f.write))
  }

  function Printed(rel: string, files: Result<Files, Failure>): Result<(string, Files), Failure> {
    match files
    case Err(e) => Err(e)
    case Ok(after) => Ok((rel, after))
  }

  // ---------- The store as an object ----------

  class PageStore {
    const codec: Codec
    const maxBytes: int
    var files: Files

    constructor (codec: Codec, maxBytes: int, files: Files)
      ensures this.codec == codec && this.maxBytes == maxBytes && this.files == files
    {
      this.codec := codec;
      this.maxBytes := maxBytes;
      this.files := files;
    }

    /** The dedicated parameters that are given replace what was there. */
    static method Override(fm: Fields, title: Option<string>, tags: Option<seq<string>>, draft: Option<bool>)
      returns (out: Fields)
      ensures out == Overridden(fm, title, tags, draft)
    {
      out := fm;
      if title.Some? { out := out["title" := Str(title.value)]; }
      if tags.Some? { out := out["tags" := Strs(tags.value)]; }
      if draft.Some? { out := out["draft" := Bool(draft.value)]; }
    }

    /** Renders, checks the size and replaces the file the path leads to; nothing changes on failure. */
    method WriteAtomic(rel: string, fm: Fields, content: string, noReplace: bool, broken: bool)
      returns (failure: Option<Failure>)
      modifies this
      ensures var r := Written(codec, old(files), Limit(maxBytes), Write(rel, Page(fm, content), noReplace), broken);
        failure == (if r.Err? then Some(r.error) else None) && files == if r.Ok? then r.value else old(files)
    {
      var raw := RenderPage(codec.marshal(fm), content);
      if codec.textBytes(raw) > Limit(maxBytes) { return Some(TooBig(codec.textBytes(raw))); }
      var place := WritePlace(rel);
      if place.None? { return Some(NoPlace); }
      if broken { return Some(Broken); }
      if noReplace && place.value in files { return Some(Exists); }
      files := files[place.value := raw];
      return None;
    }

    method CreatePage(r: Request, now: string, f: Faults) returns (res: Result<string, Failure>)
      requires r.Create?
      modifies this
      ensures var o := Outcome(codec, old(files), Limit(maxBytes), r, now, f);
        && res == (if o.Ok? then Ok(o.value.0) else Err(o.error))
        && files == if o.Ok? then o.value.1 else old(files)
    {
      if TrimSpace(r.route) == "" { return Err(Missing("route")); }
      if TrimSpace(r.heading) == "" { return Err(Missing("title")); }
      if TrimSpace(r.body) == "" { return Err(Missing("content")); }
      var named := NormalizeRoute(r.route);
      if named.Err? { return Err(BadName(named.error)); }
      var lang := NormalizeCreateLang(r.lang);
      if lang.Err? { return Err(BadName(lang.error)); }
      var checked := Validated(codec, r.given, false, CreateDedicated(r.heading, r.labels, r.hidden));
      if checked.Err? { return Err(checked.error); }
      var fm := checked.value;
      if "date" !in fm { fm := fm["date" := Str(now)]; }
      if "lastmod" !in fm { fm := fm["lastmod" := Str(now)]; }
      var final := Override(map[], Some(r.heading), r.labels, r.hidden);
      final := MergeInto(final, fm);
      var rel := PageRelativePath(named.value.1, named.value.0, lang.value);
      var failure := WriteAtomic(rel, final, r.body, true, f.write);
      res := if failure.Some? then Err(failure.value) else Ok(rel);
    }

    method UpdatePage(r: Request, now: string, f: Faults) returns (res: Result<string, Failure>)
      requires r.Update?
      modifies this
      ensures var o := Outcome(codec, old(files), Limit(maxBytes), r, now, f);
        && res == (if o.Ok? then Ok(o.value.0) else Err(o.error))
        && files == if o.Ok? then o.value.1 else old(files)
    {
      var found := Lookup(codec, files, Limit(maxBytes), r.route, r.lang);
      if found.Err? { return Err(found.error); }
      var rel, existing := found.value.0, found.value.1;
      var checked := Validated(codec, r.changes, true, UpdateDedicated(r.title, r.tags, r.draft));
      if checked.Err? { return Err(checked.error); }
      var fm := checked.value;
      var final := Override(existing.fm, r.title, r.tags, r.draft);
      if "lastmod" !in fm { fm := fm["lastmod" := Str(now)]; }
      final := MergeInto(final, fm);
      var body := existing.content;
      if r.content.Some? { body := r.content.value; }
      var at := Opened(files, rel, f.open);
      if at.Err? { return Err(at.error); }
      var failure := WriteAtomic(rel, final, body, false, f.write);
      res := if failure.Some? then Err(failure.value) else Ok(rel);
    }

    /** `backup` is what the call leaves in the work root: a copy of the file it has opened. */
    method DeletePage(r: Request, f: Faults) returns (res: Result<string, Failure>, backup: Option<string>)
      requires r.Delete?
      modifies this
      ensures forall now :: var o := Outcome(codec, old(files), Limit(maxBytes), r, now, f);
        && res == (if o.Ok? then Ok(o.value.0) else Err(o.error))
        && files == if o.Ok? then o.value.1 else old(files)
      ensures if res.Ok? then OpenPlace(res.value).Some? && OpenPlace(res.value).value in old(files)
                              && backup == Some(old(files)[OpenPlace(res.value).value])
              else backup == None
    {
      var found := Lookup(codec, files, Limit(maxBytes), r.route, r.lang);
      if found.Err? { return Err(found.error), None; }
      var rel := found.value.0;
      var at := Opened(files, rel, f.open);
      if at.Err? { return Err(at.error), None; }
      var raw := files[at.value];
      if f.write { return Err(Broken), None; }
      var place := WritePlace(rel);
      if place.None? { return Err(NoPlace), None; }
      if place.value !in files { return Err(NotThere), None; }
      files := files - {place.value};
      return Ok(rel), Some(raw);
    }
  }

  // ---------- The write, step by step ----------

  /**
   * `writeAtomicAt` over the steps in the page's own directory, once that is open. It succeeds exactly if the
   * one-step replacement does, broken when a step is; a failure leaves every page as it was, one temporary file at
   * most being added when cleaning up fails too.
   */
  method WriteAtomicAt(c: Codec, dir: Directory, limit: nat, base: string, page: Page, noReplace: bool,
                       names: seq<string>, f: WriteFaults)
    returns (failure: Option<Failure>)
    requires !IsTemp(base) && forall n :: n in names ==> IsTemp(n)
    modifies dir
    ensures var raw := RawOf(c, page);
      var o := Replaced(old(dir.files), base, raw, noReplace, !StepsWork(f, names, old(dir.files)));
      && (failure.None? <==> c.textBytes(raw) <= limit && o.Ok?) && (failure.None? ==> dir.files == o.value)
      && (failure.Some? && failure.value.TooBig? <==> c.textBytes(raw) > limit)
    ensures failure.Some? ==> forall n :: !IsTemp(n) ==>
              (n in dir.files <==> n in old(dir.files)) && (n in dir.files ==> dir.files[n] == old(dir.files)[n])
    ensures failure.Some? && !f.cleanup ==> dir.files == old(dir.files)
  {
    var raw := RawOf(c, page);
    if c.textBytes(raw) > limit { return Some(TooBig(c.textBytes(raw))); }
    var ok := dir.WriteBytesAt(base, raw, noReplace, names, f);
    if !ok { return Some(Broken); }
    return None;
  }
}
