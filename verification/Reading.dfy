/** What the YAML decoder makes of written frontmatter: a list of strings comes back as a list of any values. */
module Reading {
  import opened Wrappers
  import opened Merge
  import opened Validation

  function AsRead(v: Json): Json
    decreases v, 1
  {
    match v
    case Strs(texts) => Arr(seq(|texts|, i requires 0 <= i < |texts| => Str(texts[i])))
    case Arr(items) => Arr(seq(|items|, i requires 0 <= i < |items| => AsRead(items[i])))
    case Obj(fields) => Obj(FieldsAsRead(fields))
    case _ => v
  }

  function FieldsAsRead(m: Fields): Fields
    decreases Obj(m), 0
  {
    map k | k in m :: AsRead(m[k])
  }

  /** Reading what was read changes nothing more. */
  lemma {:induction false} AsReadTwice(v: Json)
    ensures AsRead(AsRead(v)) == AsRead(v)
    decreases v, 1
  {
    match v
    case Strs(texts) =>
      assert AsRead(AsRead(v)).items == AsRead(v).items;
    case Arr(items) =>
      forall i | 0 <= i < |items| ensures AsRead(AsRead(items[i])) == AsRead(items[i]) { AsReadTwice(items[i]); }
      assert AsRead(AsRead(v)).items == AsRead(v).items;
    case Obj(fields) => FieldsAsReadTwice(fields);
    case _ =>
  }

  lemma {:induction false} FieldsAsReadTwice(m: Fields)
    ensures FieldsAsRead(FieldsAsRead(m)) == FieldsAsRead(m)
    decreases Obj(m), 0
  {
    forall k | k in m ensures AsRead(AsRead(m[k])) == AsRead(m[k]) { AsReadTwice(m[k]); }
  }

  lemma FieldAsRead(m: Fields, k: string)
    ensures Field(FieldsAsRead(m), k) == if k in m then Some(AsRead(m[k])) else None
  {
  }

  // ---------- Reading and merging ----------

  function OptionAsRead(v: Option<Json>): Option<Json> {
    if v.Some? then Some(AsRead(v.value)) else None
  }

  lemma {:induction false} ValueMergedThenRead(cur: Option<Json>, v: Json)
    ensures MergedValue(OptionAsRead(cur), AsRead(v)) == OptionAsRead(MergedValue(cur, v))
    decreases v, 1
  {
    if v.Obj? && cur.Some? && cur.value.Obj? { MergedThenRead(cur.value.fields, v.fields); }
  }

  /** It makes no difference whether a merge is done before or after a round of writing and reading. */
  lemma {:induction false} MergedThenRead(e: Fields, u: Fields)
    ensures DeepMerge(FieldsAsRead(e), FieldsAsRead(u)) == FieldsAsRead(DeepMerge(e, u))
    decreases Obj(u), 0
  {
    var l, r := DeepMerge(FieldsAsRead(e), FieldsAsRead(u)), FieldsAsRead(DeepMerge(e, u));
    forall k ensures Field(l, k) == Field(r, k) {
      MergeField(e, u, k);
      MergeField(FieldsAsRead(e), FieldsAsRead(u), k);
      if k in u { ValueMergedThenRead(Field(e, k), u[k]); }
    }
    SameFields(l, r);
  }

  lemma {:induction false} NullsAsRead(m: Fields)
    ensures HasNull(FieldsAsRead(m)) <==> HasNull(m)
    decreases Obj(m)
  {
    forall k | k in m && m[k].Obj? ensures HasNull(FieldsAsRead(m[k].fields)) <==> HasNull(m[k].fields) {
      NullsAsRead(m[k].fields);
    }
    var r := FieldsAsRead(m);
    forall k | k in m
      ensures r[k].Null? || (r[k].Obj? && HasNull(r[k].fields)) <==> m[k].Null? || (m[k].Obj? && HasNull(m[k].fields))
    {
      assert r[k] == AsRead(m[k]);
      if m[k].Obj? { assert r[k].fields == FieldsAsRead(m[k].fields); }
    }
  }

  lemma {:induction false} NullsLandAsRead(e: Fields, u: Fields)
    ensures NullsLandOnObjects(FieldsAsRead(e), FieldsAsRead(u)) <==> NullsLandOnObjects(e, u)
    decreases Obj(u)
  {
    var e', u' := FieldsAsRead(e), FieldsAsRead(u);
    forall k | k in u && u[k].Obj?
      ensures u'[k].Obj? && (k in e && e[k].Obj? <==> k in e' && e'[k].Obj?)
      ensures k in e && e[k].Obj? ==>
                (NullsLandOnObjects(e'[k].fields, u'[k].fields) <==> NullsLandOnObjects(e[k].fields, u[k].fields))
      ensures HasNull(u'[k].fields) <==> HasNull(u[k].fields)
    {
      NullsAsRead(u[k].fields);
      if k in e && e[k].Obj? { NullsLandAsRead(e[k].fields, u[k].fields); }
    }
  }

  // ---------- Reading and depth ----------

  /** Reading keeps every value in its place, and adds the strings of a list of strings one step below it. */
  lemma {:induction false} NodeAsRead(v: Json, path: seq<Step>)
    ensures var n := NodeAt(AsRead(v), path);
      n == if NodeAt(v, path).Some? then Some(AsRead(NodeAt(v, path).value)) else StringBelow(v, path)
    decreases |path|
  {
    if path != [] {
      match (v, path[0])
      case (Obj(fields), Key(k)) => if k in fields { NodeAsRead(fields[k], path[1..]); BelowStep(v, path, fields[k]); }
      case (Arr(items), Index(i)) => if i < |items| { NodeAsRead(items[i], path[1..]); BelowStep(v, path, items[i]); }
      case (Strs(texts), Index(i)) =>
      case _ =>
    }
  }

  function StringBelow(v: Json, path: seq<Step>): Option<Json> {
    if path == [] then None
    else match (NodeAt(v, path[..|path| - 1]), path[|path| - 1])
      case (Some(Strs(texts)), Index(i)) => if i < |texts| then Some(Str(texts[i])) else None
      case _ => None
  }

  lemma BelowStep(v: Json, path: seq<Step>, child: Json)
    requires path != [] && NodeAt(v, [path[0]]) == Some(child) && (v.Obj? || v.Arr?)
    ensures StringBelow(v, path) == StringBelow(child, path[1..])
  {
    if |path| > 1 {
      assert path[..|path| - 1][1..] == path[1..][..|path| - 2];
      assert path[..|path| - 1][0] == path[0];
      assert [path[0]][1..] == [];
    }
  }
}
