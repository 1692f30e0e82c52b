/** Recursive merge of frontmatter, compared with the JSON Merge Patch of section 2 of RFC 7396. */
module Merge {
  import opened Wrappers

  /** Frontmatter values: JSON, a list of strings as the tools pass tags, or a type validation refuses. */
  datatype Json =
    | Null | Bool(b: bool) | Num(n: int) | Str(s: string) | Arr(items: seq<Json>) | Strs(texts: seq<string>)
    | Obj(fields: map<string, Json>) | Foreign(kind: string)

  type Fields = map<string, Json>

  function Field(m: Fields, k: string): Option<Json> {
    if k in m then Some(m[k]) else None
  }

  // ---------- The code's merge ----------

  /** What one update entry leaves under its key; None means the key is gone. */
  function MergedValue(cur: Option<Json>, v: Json): Option<Json>
    decreases v, 1
  {
    if v.Null? then None
    else if v.Obj? && cur.Some? && cur.value.Obj? then Some(Obj(DeepMerge(cur.value.fields, v.fields)))
    else Some(v)
  }

  /** The existing fields overlaid with the updates, key by key. */
  function DeepMerge(existing: Fields, updates: Fields): Fields
    decreases Obj(updates), 0
  {
    map k | k in existing.Keys + updates.Keys && (k in updates ==> MergedValue(Field(existing, k), updates[k]).Some?) ::
      if k in updates then MergedValue(Field(existing, k), updates[k]).value else existing[k]
  }

  /** The same, as the code does it: deleting from and assigning to a copy. */
  method MergeInto(existing: Fields, updates: Fields) returns (out: Fields)
    ensures out == DeepMerge(existing, updates)
    decreases Obj(updates)
  {
    out := existing;
    var todo := updates.Keys;
    while todo != {}
      invariant todo <= updates.Keys
      invariant forall k :: k in todo || k !in updates ==> Field(out, k) == Field(existing, k)
      invariant forall k :: k in updates && k !in todo ==> Field(out, k) == MergedValue(Field(existing, k), updates[k])
      decreases |todo|
    {
      var k :| k in todo;
      todo := todo - {k};
      var v := updates[k];
      assert Field(out, k) == Field(existing, k);
      if v.Null? {
        out := out - {k};
      } else if v.Obj? && k in out && out[k].Obj? {
        var merged := MergeInto(out[k].fields, v.fields);
        out := out[k := Obj(merged)];
      } else {
        out := out[k := v];
      }
    }
    forall k ensures Field(out, k) == Field(DeepMerge(existing, updates), k) { MergeField(existing, updates, k); }
    SameFields(out, DeepMerge(existing, updates));
  }

  lemma MergeField(existing: Fields, updates: Fields, k: string)
    ensures Field(DeepMerge(existing, updates), k) ==
              if k in updates then MergedValue(Field(existing, k), updates[k]) else Field(existing, k)
  {
  }

  lemma SameFields(a: Fields, b: Fields)
    requires forall k :: Field(a, k) == Field(b, k)
    ensures a == b
  {
    forall k ensures k in a <==> k in b { assert Field(a, k) == Field(b, k); }
    forall k | k in a ensures a[k] == b[k] { assert Field(a, k) == Field(b, k); }
  }

  // ---------- JSON Merge Patch ----------

  function PatchedValue(target: Option<Json>, patch: Json): Json
    decreases patch
  {
    if patch.Obj? then
      var base := if target.Some? && target.value.Obj? then target.value.fields else map[];
      Obj(map k | k in base.Keys + patch.fields.Keys && (k in patch.fields ==> !patch.fields[k].Null?) ::
            if k in patch.fields then PatchedValue(Field(base, k), patch.fields[k]) else base[k])
    else patch
  }

  function MergePatch(target: Fields, patch: Fields): Fields {
    PatchedValue(Some(Obj(target)), Obj(patch)).fields
  }

  lemma PatchField(target: Fields, patch: Fields, k: string)
    ensures Field(MergePatch(target, patch), k) ==
              if k in patch then (if patch[k].Null? then None else Some(PatchedValue(Field(target, k), patch[k])))
              else Field(target, k)
  {
  }

  // ---------- When they agree ----------

  /** A null somewhere in nested objects; lists are opaque to both merges. */
  ghost predicate HasNull(m: Fields)
    decreases Obj(m)
  {
    exists k :: k in m && (m[k].Null? || (m[k].Obj? && HasNull(m[k].fields)))
  }

  /** No object containing a null is merged onto a missing or non-object value. */
  ghost predicate NullsLandOnObjects(existing: Fields, updates: Fields)
    decreases Obj(updates)
  {
    forall k :: k in updates && updates[k].Obj? ==>
      if k in existing && existing[k].Obj? then NullsLandOnObjects(existing[k].fields, updates[k].fields)
      else !HasNull(updates[k].fields)
  }

  /** Patching nothing with an object strips its nulls: it is unchanged exactly if it has none. */
  lemma {:induction false} PatchOntoNothing(cur: Option<Json>, m: Fields)
    requires cur.Some? ==> !cur.value.Obj?
    ensures PatchedValue(cur, Obj(m)) == Obj(m) <==> !HasNull(m)
    decreases Obj(m)
  {
    var r := PatchedValue(cur, Obj(m)).fields;
    forall k | k in m && m[k].Obj?
      ensures PatchedValue(None, m[k]) == m[k] <==> !HasNull(m[k].fields)
    {
      PatchOntoNothing(None, m[k].fields);
    }
    assert forall k :: k !in m || m[k].Null? ==> Field(r, k) == None;
    assert forall k :: k in m && !m[k].Null? ==> Field(r, k) == Some(PatchedValue(None, m[k]));
    if HasNull(m) {
      var k :| k in m && (m[k].Null? || (m[k].Obj? && HasNull(m[k].fields)));
      assert Field(r, k) != Field(m, k);
    } else {
      forall k ensures Field(r, k) == Field(m, k) {
        if k in m { assert !m[k].Null? && (m[k].Obj? ==> !HasNull(m[k].fields)); }
      }
      SameFields(r, m);
    }
  }

  lemma {:induction false} ValuesAgree(cur: Option<Json>, v: Json)
    requires !v.Null?
    ensures MergedValue(cur, v) == Some(PatchedValue(cur, v)) <==>
              (v.Obj? ==>
                if cur.Some? && cur.value.Obj? then NullsLandOnObjects(cur.value.fields, v.fields)
                else !HasNull(v.fields))
    decreases v, 1
  {
    if v.Obj? {
      if cur.Some? && cur.value.Obj? {
        AgreesWithMergePatch(cur.value.fields, v.fields);
        assert PatchedValue(cur, v) == Obj(MergePatch(cur.value.fields, v.fields));
      } else {
        PatchOntoNothing(cur, v.fields);
      }
    }
  }

  /** The code's merge is Merge Patch exactly when no object with a null lands on a non-object. */
  lemma {:induction false} AgreesWithMergePatch(existing: Fields, updates: Fields)
    ensures DeepMerge(existing, updates) == MergePatch(existing, updates) <==> NullsLandOnObjects(existing, updates)
    decreases Obj(updates), 0
  {
    var d, p := DeepMerge(existing, updates), MergePatch(existing, updates);
    forall k
      ensures Field(d, k) == if k in updates then MergedValue(Field(existing, k), updates[k]) else Field(existing, k)
      ensures Field(p, k) ==
                if k !in updates then Field(existing, k)
                else if updates[k].Null? then None
                else Some(PatchedValue(Field(existing, k), updates[k]))
      ensures k in updates && !updates[k].Null? ==>
        (Field(d, k) == Field(p, k) <==>
          (updates[k].Obj? ==>
            if k in existing && existing[k].Obj? then NullsLandOnObjects(existing[k].fields, updates[k].fields)
            else !HasNull(updates[k].fields)))
    {
      MergeField(existing, updates, k);
      PatchField(existing, updates, k);
      if k in updates && !updates[k].Null? { ValuesAgree(Field(existing, k), updates[k]); }
    }
    if NullsLandOnObjects(existing, updates) {
      SameFields(d, p);
    } else if d == p {
      assert forall k :: Field(d, k) == Field(p, k);
    }
  }

  // ---------- Merging twice ----------

  lemma {:induction false} SelfMerge(m: Fields)
    ensures DeepMerge(m, m) == m <==> !HasNull(m)
    decreases Obj(m)
  {
    var r := DeepMerge(m, m);
    forall k
      ensures Field(r, k) == if k in m then MergedValue(Some(m[k]), m[k]) else None
      ensures k in m && m[k].Obj? ==> (Field(r, k) == Field(m, k) <==> !HasNull(m[k].fields))
    {
      MergeField(m, m, k);
      if k in m && m[k].Obj? { SelfMerge(m[k].fields); }
    }
    if !HasNull(m) {
      SameFields(r, m);
    } else {
      var k :| k in m && (m[k].Null? || (m[k].Obj? && HasNull(m[k].fields)));
      assert Field(r, k) != Field(m, k);
    }
  }

  /** Applying the same update again changes nothing, exactly under the same condition. */
  lemma {:induction false} Idempotent(existing: Fields, updates: Fields)
    ensures DeepMerge(DeepMerge(existing, updates), updates) == DeepMerge(existing, updates)
            <==> NullsLandOnObjects(existing, updates)
    decreases Obj(updates)
  {
    var once := DeepMerge(existing, updates);
    var twice := DeepMerge(once, updates);
    forall k
      ensures Field(twice, k) == if k in updates then MergedValue(Field(once, k), updates[k]) else Field(once, k)
      ensures !(k in updates && updates[k].Obj?) ==> Field(twice, k) == Field(once, k)
      ensures k in updates && updates[k].Obj? ==>
        (Field(twice, k) == Field(once, k) <==>
          if k in existing && existing[k].Obj? then NullsLandOnObjects(existing[k].fields, updates[k].fields)
          else !HasNull(updates[k].fields))
    {
      MergeField(existing, updates, k);
      MergeField(once, updates, k);
      if k in updates && updates[k].Obj? {
        if k in existing && existing[k].Obj? { Idempotent(existing[k].fields, updates[k].fields); }
        else { SelfMerge(updates[k].fields); }
      }
    }
    if NullsLandOnObjects(existing, updates) {
      SameFields(twice, once);
    } else if twice == once {
      assert forall k :: Field(twice, k) == Field(once, k);
    }
  }

  // ---------- Composing two updates ----------

  /** Nowhere does the second update have an object where the first has something else. */
  ghost predicate Composable(a: Fields, b: Fields)
    decreases Obj(b)
  {
    forall k :: k in b && b[k].Obj? && k in a ==> a[k].Obj? && Composable(a[k].fields, b[k].fields)
  }

  lemma {:induction false} ComposeForward(e: Fields, a: Fields, b: Fields)
    requires !HasNull(a) && !HasNull(b) && Composable(a, b)
    ensures DeepMerge(DeepMerge(e, a), b) == DeepMerge(e, DeepMerge(a, b))
    decreases Obj(b)
  {
    var l, r := DeepMerge(DeepMerge(e, a), b), DeepMerge(e, DeepMerge(a, b));
    forall k ensures Field(l, k) == Field(r, k) {
      MergeField(e, a, k);
      MergeField(DeepMerge(e, a), b, k);
      MergeField(a, b, k);
      MergeField(e, DeepMerge(a, b), k);
      if k in a { assert !a[k].Null?; }
      if k in b { assert !b[k].Null?; }
      if k in b && b[k].Obj? && k in a && k in e && e[k].Obj? {
        ComposeForward(e[k].fields, a[k].fields, b[k].fields);
      }
    }
    SameFields(l, r);
  }

  lemma {:induction false} FreshKey(s: set<string>) returns (f: string)
    ensures f !in s && forall x :: x in s ==> |x| < |f|
  {
    if s == {} {
      f := "x";
    } else {
      var x :| x in s;
      var g := FreshKey(s - {x});
      f := (if |g| > |x| then g else x) + "x";
    }
  }

  /** Two updates that do not compose are told apart by some page. */
  lemma {:induction false} ComposeWitness(a: Fields, b: Fields) returns (e: Fields)
    requires !HasNull(a) && !HasNull(b) && !Composable(a, b)
    ensures DeepMerge(DeepMerge(e, a), b) != DeepMerge(e, DeepMerge(a, b))
    decreases Obj(b)
  {
    var k :| k in b && b[k].Obj? && k in a && !(a[k].Obj? && Composable(a[k].fields, b[k].fields));
    assert !a[k].Null? && !HasNull(b[k].fields);
    if a[k].Obj? {
      var inner := ComposeWitness(a[k].fields, b[k].fields);
      e := map[k := Obj(inner)];
      ApartInside(a, b, k, inner);
    } else {
      e := ApartAtLeaf(a, b, k);
    }
  }

  /** A difference below a key of three objects is a difference. */
  lemma ApartInside(a: Fields, b: Fields, k: string, inner: Fields)
    requires k in a && k in b && a[k].Obj? && b[k].Obj?
    requires DeepMerge(DeepMerge(inner, a[k].fields), b[k].fields) !=
              DeepMerge(inner, DeepMerge(a[k].fields, b[k].fields))
    ensures var e: Fields := map[k := Obj(inner)]; DeepMerge(DeepMerge(e, a), b) != DeepMerge(e, DeepMerge(a, b))
  {
    var e: Fields := map[k := Obj(inner)];
    InTurnInside(e, a, b, k);
    assert Field(DeepMerge(DeepMerge(e, a), b), k) != Field(DeepMerge(e, DeepMerge(a, b)), k);
  }

  /** Under a key that holds objects throughout, the two are those of the objects. */
  lemma InTurnInside(e: Fields, a: Fields, b: Fields, k: string)
    requires k in e && k in a && k in b && e[k].Obj? && a[k].Obj? && b[k].Obj?
    ensures Field(DeepMerge(DeepMerge(e, a), b), k) ==
              Some(Obj(DeepMerge(DeepMerge(e[k].fields, a[k].fields), b[k].fields)))
    ensures Field(DeepMerge(e, DeepMerge(a, b)), k) ==
              Some(Obj(DeepMerge(e[k].fields, DeepMerge(a[k].fields, b[k].fields))))
  {
    InTurn(e, a, b, k);
  }

  /** Where the first update has something that is no object, an extra key under it tells the two apart. */
  lemma ApartAtLeaf(a: Fields, b: Fields, k: string) returns (e: Fields)
    requires k in a && k in b && !a[k].Obj? && !a[k].Null? && b[k].Obj?
    ensures DeepMerge(DeepMerge(e, a), b) != DeepMerge(e, DeepMerge(a, b))
  {
    var f := FreshKey(b[k].fields.Keys);
    e := map[k := Obj(map[f := Str("")])];
    InTurn(e, a, b, k);
    MergeField(map[f := Str("")], b[k].fields, f);
    assert Field(DeepMerge(DeepMerge(e, a), b), k) != Field(DeepMerge(e, DeepMerge(a, b)), k);
  }

  /** One key of two updates, applied in turn and merged first. */
  lemma InTurn(e: Fields, a: Fields, b: Fields, k: string)
    ensures Field(DeepMerge(DeepMerge(e, a), b), k) ==
              var once := if k in a then MergedValue(Field(e, k), a[k]) else Field(e, k);
      if k in b then MergedValue(once, b[k]) else once
    ensures Field(DeepMerge(e, DeepMerge(a, b)), k) ==
              var both := if k in b then MergedValue(Field(a, k), b[k]) else Field(a, k);
      if both.Some? then MergedValue(Field(e, k), both.value) else Field(e, k)
  {
    MergeField(e, a, k);
    MergeField(DeepMerge(e, a), b, k);
    MergeField(a, b, k);
    MergeField(e, DeepMerge(a, b), k);
  }

  /** Merging two null-free updates first is applying them in turn, on every page, exactly if they compose. */
  lemma ComposesIff(a: Fields, b: Fields)
    requires !HasNull(a) && !HasNull(b)
    ensures (forall e :: DeepMerge(DeepMerge(e, a), b) == DeepMerge(e, DeepMerge(a, b))) <==> Composable(a, b)
  {
    if Composable(a, b) {
      forall e ensures DeepMerge(DeepMerge(e, a), b) == DeepMerge(e, DeepMerge(a, b)) { ComposeForward(e, a, b); }
    } else {
      var e := ComposeWitness(a, b);
    }
  }

  // ---------- The value at every path ----------

  /** The non-object value at the end of a path, if there is one. */
  function Leaf(m: Fields, path: seq<string>): Option<Json>
    requires |path| > 0
    decreases |path|
  {
    match Field(m, path[0])
    case None => None
    case Some(v) =>
      if |path| == 1 then (if v.Obj? then None else Some(v))
      else if v.Obj? then Leaf(v.fields, path[1..]) else None
  }

  /** Read off the two trees without merging them: the update speaks first, and is silent where it has no key. */
  function Overlay(e: Fields, u: Fields, path: seq<string>): Option<Json>
    requires |path| > 0
    decreases |path|
  {
    var k := path[0];
    if k !in u then Leaf(e, path)
    else if u[k].Null? then None
    else if u[k].Obj? && k in e && e[k].Obj? then
      (if |path| == 1 then None else Overlay(e[k].fields, u[k].fields, path[1..]))
    else Leaf(u, path)
  }

  lemma {:induction false} LeafOfMerge(e: Fields, u: Fields, path: seq<string>)
    requires |path| > 0
    ensures Leaf(DeepMerge(e, u), path) == Overlay(e, u, path)
    decreases |path|
  {
    var k := path[0];
    MergeField(e, u, k);
    if k in u && u[k].Obj? && k in e && e[k].Obj? && |path| > 1 {
      LeafOfMerge(e[k].fields, u[k].fields, path[1..]);
    }
  }

  /** At the top level: a key survives exactly if the update sets it, or leaves it alone and it was there. */
  lemma KeysOfMerge(e: Fields, u: Fields, k: string)
    ensures k in DeepMerge(e, u) <==> if k in u then !u[k].Null? else k in e
    ensures k in e && k !in u ==> DeepMerge(e, u)[k] == e[k]
    ensures k in u && !u[k].Null? && !u[k].Obj? ==> DeepMerge(e, u)[k] == u[k]
  {
    MergeField(e, u, k);
  }
}
