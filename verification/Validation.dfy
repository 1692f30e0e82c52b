/** What frontmatter the mutations accept. */
module Validation {
  import opened Wrappers
  import opened Merge

  const MAX_BYTES: nat := 10240
  const MAX_DEPTH: nat := 3
  const FORBIDDEN: set<string> := {"aliases", "cascade", "build", "outputs", "headless", "_target"}

  // ---------- The value tree ----------

  /** The recursive check; the frontmatter itself is at depth 1. */
  predicate ValidTree(v: Json, isUpdate: bool, depth: nat)
    decreases v
  {
    && depth <= MAX_DEPTH
    && match v
       case Null => isUpdate
       case Obj(fields) => forall k :: k in fields ==> ValidTree(fields[k], isUpdate, depth + 1)
       case Arr(items) => forall i :: 0 <= i < |items| ==> ValidTree(items[i], isUpdate, depth + 1)
       case Foreign(_) => false
       case _ => true
  }

  datatype Step = Key(k: string) | Index(i: nat)

  /** The value reached by following keys and indices from the top. */
  function NodeAt(v: Json, path: seq<Step>): Option<Json>
    decreases |path|
  {
    if path == [] then Some(v)
    else match (v, path[0])
      case (Obj(fields), Key(k)) => if k in fields then NodeAt(fields[k], path[1..]) else None
      case (Arr(items), Index(i)) => if i < |items| then NodeAt(items[i], path[1..]) else None
      case _ => None
  }

  predicate NodeOk(v: Json, isUpdate: bool) {
    !v.Foreign? && (v.Null? ==> isUpdate)
  }

  lemma {:induction false} ValidNode(v: Json, isUpdate: bool, depth: nat, path: seq<Step>)
    requires ValidTree(v, isUpdate, depth) && NodeAt(v, path).Some?
    ensures depth + |path| <= MAX_DEPTH && NodeOk(NodeAt(v, path).value, isUpdate)
    decreases |path|
  {
    if path != [] {
      match (v, path[0])
      case (Obj(fields), Key(k)) => ValidNode(fields[k], isUpdate, depth + 1, path[1..]);
      case (Arr(items), Index(i)) => ValidNode(items[i], isUpdate, depth + 1, path[1..]);
    }
  }

  lemma {:induction false} InvalidNode(v: Json, isUpdate: bool, depth: nat) returns (path: seq<Step>)
    requires !ValidTree(v, isUpdate, depth)
    ensures NodeAt(v, path).Some? && (depth + |path| > MAX_DEPTH || !NodeOk(NodeAt(v, path).value, isUpdate))
    decreases v
  {
    path := [];
    if depth <= MAX_DEPTH && NodeOk(v, isUpdate) {
      if v.Obj? {
        var k :| k in v.fields && !ValidTree(v.fields[k], isUpdate, depth + 1);
        var rest := InvalidNode(v.fields[k], isUpdate, depth + 1);
        path := [Key(k)] + rest;
        assert path[1..] == rest;
      } else {
        var i :| 0 <= i < |v.items| && !ValidTree(v.items[i], isUpdate, depth + 1);
        var rest := InvalidNode(v.items[i], isUpdate, depth + 1);
        path := [Index(i)] + rest;
        assert path[1..] == rest;
      }
    }
  }

  /** Accepted exactly if every value anywhere below is shallow enough, of an allowed type, and null only on update. */
  lemma ValidTreeMeaning(v: Json, isUpdate: bool, depth: nat)
    ensures ValidTree(v, isUpdate, depth) <==>
              forall path :: NodeAt(v, path).Some? ==>
                  depth + |path| <= MAX_DEPTH && NodeOk(NodeAt(v, path).value, isUpdate)
  {
    if ValidTree(v, isUpdate, depth) {
      forall path | NodeAt(v, path).Some?
        ensures depth + |path| <= MAX_DEPTH && NodeOk(NodeAt(v, path).value, isUpdate)
      {
        ValidNode(v, isUpdate, depth, path);
      }
    } else {
      var path := InvalidNode(v, isUpdate, depth);
    }
  }

  // ---------- The whole check ----------

  /** A dedicated parameter as it reaches the check: a plain value, or a pointer that may be nil. */
  datatype Dedicated = Plain(v: Json) | Pointer(target: Option<Json>)

  /** A pointer is never zero-like, not even a nil one. */
  predicate ZeroLike(d: Dedicated) {
    d.Plain? && match d.v
      case Str(s) => s == ""
      case Strs(texts) => texts == []
      case Arr(items) => items == []
      case Null => true
      case _ => false
  }

  datatype Refusal = TooLarge(bytes: nat)
    | Forbidden(keys: set<string>) | DateFixed | Conflict(keys: set<string>) | BadValue

  function Conflicts(fm: Fields, dedicated: map<string, Dedicated>): set<string> {
    set k | k in dedicated && !ZeroLike(dedicated[k]) && k in fm
  }

  /** `bytes` is the length of the frontmatter as JSON. Of several conflicting keys the code reports one. */
  function ValidateFrontmatter(fm: Fields, bytes: nat, isUpdate: bool,
      dedicated: map<string, Dedicated>): Result<Fields, Refusal>
  {
    if bytes > MAX_BYTES then Err(TooLarge(bytes))
    else if fm.Keys * FORBIDDEN != {} then Err(Forbidden(fm.Keys * FORBIDDEN))
    else if isUpdate && "date" in fm then Err(DateFixed)
    else if Conflicts(fm, dedicated) != {} then Err(Conflict(Conflicts(fm, dedicated)))
    else if !ValidTree(Obj(fm), isUpdate, 1) then Err(BadValue)
    else Ok(fm)
  }

  function UpdateDedicated(title: Option<string>, tags: Option<seq<string>>,
      draft: Option<bool>): map<string, Dedicated>
  {
    map["title" := Pointer(if title.Some? then Some(Str(title.value)) else None),
        "tags" := Pointer(if tags.Some? then Some(Strs(tags.value)) else None),
        "draft" := Pointer(if draft.Some? then Some(Bool(draft.value)) else None)]
  }

  function CreateDedicated(title: string, tags: Option<seq<string>>, draft: Option<bool>): map<string, Dedicated> {
    map["title" := Plain(Str(title)),
        "tags" := Plain(Strs(if tags.Some? then tags.value else [])),
        "draft" := Pointer(if draft.Some? then Some(Bool(draft.value)) else None)]
  }

  /** A key of the frontmatter with a dedicated parameter that is not zero-like is a conflict. */
  lemma NoConflict(fm: Fields, dedicated: map<string, Dedicated>, k: string)
    requires Conflicts(fm, dedicated) == {} && k in dedicated && k in fm
    ensures ZeroLike(dedicated[k])
  {
    assert k in Conflicts(fm, dedicated) <==> !ZeroLike(dedicated[k]);
  }

  /** What passing the check says, apart from conflicts: the two key rules and every value below. */
  lemma Accepted(fm: Fields, bytes: nat, isUpdate: bool, dedicated: map<string, Dedicated>)
    requires ValidateFrontmatter(fm, bytes, isUpdate, dedicated).Ok?
    ensures Conflicts(fm, dedicated) == {} && (isUpdate ==> "date" !in fm)
    ensures forall k :: k in FORBIDDEN ==> k !in fm
    ensures forall path :: NodeAt(Obj(fm), path).Some? ==>
              |path| < MAX_DEPTH && NodeOk(NodeAt(Obj(fm), path).value, isUpdate)
  {
    ValidTreeMeaning(Obj(fm), isUpdate, 1);
    assert forall k :: k in fm && k in FORBIDDEN <==> k in fm.Keys * FORBIDDEN;
  }

  // ---------- Acceptance, in plain terms ----------

  const SIX := ["aliases", "cascade", "build", "outputs", "headless", "_target"]

  /** The key has a dedicated parameter, which is a pointer, nil or not, or something else that is not empty. */
  predicate Dedicates(dedicated: map<string, Dedicated>, k: string) {
    k in dedicated && (dedicated[k].Pointer? || dedicated[k].v !in [Str(""), Strs([]), Arr([]), Null])
  }

  /** Whatever stands at the place is of an allowed type, at most the third level, and null only on update. */
  predicate PlaceFine(fm: Fields, isUpdate: bool, path: seq<Step>) {
    match NodeAt(Obj(fm), path)
    case None => true
    case Some(v) => |path| <= 2 && !v.Foreign? && (v.Null? ==> isUpdate)
  }

  ghost predicate TreeFine(fm: Fields, isUpdate: bool) {
    forall path :: PlaceFine(fm, isUpdate, path)
  }

  /** The first rule that is broken, with the keys that break it; `taken` are the keys of dedicated parameters. */
  ghost predicate IsRefusal(fm: Fields, bytes: nat, isUpdate: bool, taken: set<string>, why: Refusal) {
    var bad := set k | k in fm && k in SIX;
    match why
    case TooLarge(n) => bytes > 10240 && n == bytes
    case Forbidden(keys) => bytes <= 10240 && bad != {} && keys == bad
    case DateFixed => bytes <= 10240 && bad == {} && isUpdate && "date" in fm
    case Conflict(keys) =>
      bytes <= 10240 && bad == {} && !(isUpdate && "date" in fm) && fm.Keys * taken != {} && keys == fm.Keys * taken
    case BadValue =>
      bytes <= 10240 && bad == {} && !(isUpdate && "date" in fm) && fm.Keys * taken == {} && !TreeFine(fm, isUpdate)
  }

  /** No rule is broken. */
  ghost predicate Acceptable(fm: Fields, bytes: nat, isUpdate: bool, taken: set<string>) {
    && bytes <= 10240 && (forall k :: k in fm ==> k !in SIX) && (isUpdate ==> "date" !in fm)
    && fm.Keys !! taken && TreeFine(fm, isUpdate)
  }

  /** Accepted exactly if no rule is broken, unchanged; otherwise the first broken rule is the refusal. */
  lemma RefusedExactly(fm: Fields, bytes: nat, isUpdate: bool, dedicated: map<string, Dedicated>, taken: set<string>)
    requires forall k :: k in taken <==> Dedicates(dedicated, k)
    ensures var r := ValidateFrontmatter(fm, bytes, isUpdate, dedicated);
      && (r == Ok(fm) <==> Acceptable(fm, bytes, isUpdate, taken)) && (r.Ok? ==> r.value == fm)
      && (forall why :: r == Err(why) <==> IsRefusal(fm, bytes, isUpdate, taken, why))
  {
    SixForbidden(fm);
    ConflictsAre(fm, dedicated);
    TreeFineIs(fm, isUpdate);
    assert fm.Keys * FORBIDDEN == set k | k in fm && k in SIX;
    assert Conflicts(fm, dedicated) == fm.Keys * taken;
    assert (forall k :: k in fm ==> k !in SIX) <==> fm.Keys * FORBIDDEN == {};
  }

  lemma SixForbidden(fm: Fields)
    ensures forall k :: k in fm.Keys * FORBIDDEN <==> k in fm && k in SIX
    ensures fm.Keys * FORBIDDEN != {} <==> exists k :: k in fm && k in SIX
  {
    forall k ensures k in fm.Keys * FORBIDDEN <==> k in fm && k in SIX { assert k in SIX <==> k in FORBIDDEN; }
    if fm.Keys * FORBIDDEN != {} { var k :| k in fm.Keys * FORBIDDEN; }
  }

  lemma ConflictsAre(fm: Fields, dedicated: map<string, Dedicated>)
    ensures forall k :: k in Conflicts(fm, dedicated) <==> k in fm && Dedicates(dedicated, k)
    ensures Conflicts(fm, dedicated) != {} <==> exists k :: k in fm && Dedicates(dedicated, k)
  {
    if Conflicts(fm, dedicated) != {} { var k :| k in Conflicts(fm, dedicated); }
  }

  lemma TreeFineIs(fm: Fields, isUpdate: bool)
    ensures ValidTree(Obj(fm), isUpdate, 1) <==> TreeFine(fm, isUpdate)
  {
    ValidTreeMeaning(Obj(fm), isUpdate, 1);
    if ValidTree(Obj(fm), isUpdate, 1) {
      forall path ensures PlaceFine(fm, isUpdate, path) {}
    } else {
      var path := InvalidNode(Obj(fm), isUpdate, 1);
      assert !PlaceFine(fm, isUpdate, path);
    }
  }

  /** On update each of the three keys is taken, whether its parameter is given or not. */
  lemma UpdateDedicates(title: Option<string>, tags: Option<seq<string>>, draft: Option<bool>, k: string)
    ensures Dedicates(UpdateDedicated(title, tags, draft), k) <==> k in ["title", "tags", "draft"]
  {
  }

  /** On create the draft is; a title and tags are if they are not empty. */
  lemma CreateDedicates(title: string, tags: Option<seq<string>>, draft: Option<bool>, k: string)
    ensures Dedicates(CreateDedicated(title, tags, draft), k) <==>
              k == "draft" || (k == "title" && title != "") || (k == "tags" && tags.Some? && tags.value != [])
  {
  }

  /** An update never carries the date or a dedicated field, whether or not the dedicated parameter is given. */
  lemma AcceptedUpdate(fm: Fields, bytes: nat, title: Option<string>, tags: Option<seq<string>>, draft: Option<bool>)
    requires ValidateFrontmatter(fm, bytes, true, UpdateDedicated(title, tags, draft)).Ok?
    ensures "date" !in fm && "title" !in fm && "tags" !in fm && "draft" !in fm
  {
    var d := UpdateDedicated(title, tags, draft);
    if "title" in fm { NoConflict(fm, d, "title"); }
    if "tags" in fm { NoConflict(fm, d, "tags"); }
    if "draft" in fm { NoConflict(fm, d, "draft"); }
  }

  /** A create carries no null, no draft, no title, and tags only if the dedicated list is empty. */
  lemma AcceptedCreate(fm: Fields, bytes: nat, title: string, tags: Option<seq<string>>, draft: Option<bool>)
    requires title != "" && ValidateFrontmatter(fm, bytes, false, CreateDedicated(title, tags, draft)).Ok?
    ensures "title" !in fm && "draft" !in fm && ("tags" in fm ==> tags.None? || tags.value == [])
    ensures !HasNull(fm)
  {
    var d := CreateDedicated(title, tags, draft);
    if "title" in fm { NoConflict(fm, d, "title"); }
    if "tags" in fm { NoConflict(fm, d, "tags"); }
    if "draft" in fm { NoConflict(fm, d, "draft"); }
    Accepted(fm, bytes, false, d);
    NoNullsInside(fm);
  }

  lemma {:induction false} NoNullsInside(m: Fields)
    requires forall path :: NodeAt(Obj(m), path).Some? ==> NodeOk(NodeAt(Obj(m), path).value, false)
    ensures !HasNull(m)
    decreases Obj(m)
  {
    forall k | k in m ensures !m[k].Null? && (m[k].Obj? ==> !HasNull(m[k].fields)) {
      assert [Key(k)][1..] == [];
      assert NodeAt(Obj(m), [Key(k)]) == Some(m[k]);
      if m[k].Obj? {
        forall path | NodeAt(m[k], path).Some? ensures NodeOk(NodeAt(m[k], path).value, false) {
          assert ([Key(k)] + path)[1..] == path;
          assert NodeAt(Obj(m), [Key(k)] + path) == NodeAt(m[k], path);
        }
        NoNullsInside(m[k].fields);
      }
    }
  }

  /** On Create the code's merge is Merge Patch, validation having refused every null. */
  lemma CreateMergesAsPatch(base: Fields, fm: Fields, bytes: nat, title: string, tags: Option<seq<string>>,
      draft: Option<bool>)
    requires title != "" && ValidateFrontmatter(fm, bytes, false, CreateDedicated(title, tags, draft)).Ok?
    ensures DeepMerge(base, fm) == MergePatch(base, fm)
  {
    AcceptedCreate(fm, bytes, title, tags, draft);
    NullFreeLands(base, fm);
    AgreesWithMergePatch(base, fm);
  }

  lemma {:induction false} NullFreeLands(existing: Fields, updates: Fields)
    requires !HasNull(updates)
    ensures NullsLandOnObjects(existing, updates)
    decreases Obj(updates)
  {
    forall k | k in updates && updates[k].Obj?
      ensures if k in existing && existing[k].Obj? then NullsLandOnObjects(existing[k].fields, updates[k].fields)
              else !HasNull(updates[k].fields)
    {
      assert !HasNull(updates[k].fields);
      if k in existing && existing[k].Obj? { NullFreeLands(existing[k].fields, updates[k].fields); }
    }
  }

  /** Whatever a merge leaves anywhere was in one of the two trees, at the same place. */
  lemma {:induction false} MergedNode(e: Fields, u: Fields, path: seq<Step>)
    requires NodeAt(Obj(DeepMerge(e, u)), path).Some?
    ensures path == [] || NodeAt(Obj(e), path) == NodeAt(Obj(DeepMerge(e, u)), path)
            || NodeAt(Obj(u), path) == NodeAt(Obj(DeepMerge(e, u)), path)
            || (NodeAt(Obj(DeepMerge(e, u)), path).value.Obj? && NodeAt(Obj(u), path).Some?)
    decreases |path|
  {
    if path != [] {
      var k := path[0].k;
      MergeField(e, u, k);
      if k in u && u[k].Obj? && k in e && e[k].Obj? {
        MergedNode(e[k].fields, u[k].fields, path[1..]);
      }
    }
  }
}
