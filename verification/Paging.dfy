/** The page and asset listings: a sorted snapshot, one window of it at a time. */
module Paging {
  import opened Wrappers
  import opened Text
  import opened Cursors

  // ---------- Order ----------

  /** Go's `<` on strings. */
  predicate Less(a: string, b: string) {
    b != "" && (a == "" || a[0] < b[0] || (a[0] == b[0] && Less(a[1..], b[1..])))
  }

  lemma {:induction false} LessTrichotomy(a: string, b: string)
    ensures (Less(a, b) && a != b && !Less(b, a)) || (a == b && !Less(a, b)) || (Less(b, a) && a != b && !Less(a, b))
  {
    if a != "" && b != "" && a[0] == b[0] {
      LessTrichotomy(a[1..], b[1..]);
      assert a == [a[0]] + a[1..] && b == [b[0]] + b[1..];
    }
  }

  lemma {:induction false} LessTransitive(a: string, b: string, c: string)
    requires Less(a, b) && Less(b, c)
    ensures Less(a, c)
  {
    if a != "" && a[0] == b[0] == c[0] { LessTransitive(a[1..], b[1..], c[1..]); }
  }

  /** `b` goes on where `a` ends, or has the greater character where they first differ. */
  predicate DiffersUpAt(a: string, b: string, i: nat) {
    i <= |a| && i < |b| && a[..i] == b[..i] && (i < |a| ==> a[i] < b[i])
  }

  lemma {:induction false} LessMeaning(a: string, b: string)
    ensures Less(a, b) <==> exists i: nat :: DiffersUpAt(a, b, i)
  {
    if a != "" && b != "" && a[0] == b[0] {
      LessMeaning(a[1..], b[1..]);
      assert a == [a[0]] + a[1..] && b == [b[0]] + b[1..];
      forall i: nat ensures DiffersUpAt(a[1..], b[1..], i) <==> DiffersUpAt(a, b, i + 1) {
        OneFurther(a, b, i);
      }
      assert !DiffersUpAt(a, b, 0);
      if i: nat :| DiffersUpAt(a, b, i) { assert DiffersUpAt(a[1..], b[1..], i - 1); }
    } else if a == "" && b != "" {
      assert DiffersUpAt(a, b, 0);
    } else if b != "" {
      if a[0] < b[0] { assert DiffersUpAt(a, b, 0); }
      assert forall i: nat :: 0 < i <= |a| && i <= |b| ==> a[..i][0] == a[0] && b[..i][0] == b[0];
    }
  }

  lemma OneFurther(a: string, b: string, i: nat)
    requires a != "" && b != "" && a[0] == b[0]
    ensures DiffersUpAt(a[1..], b[1..], i) <==> DiffersUpAt(a, b, i + 1)
  {
    if i + 1 <= |a| && i + 1 <= |b| {
      assert a[..i + 1] == [a[0]] + a[1..][..i] && b[..i + 1] == [b[0]] + b[1..][..i];
      assert a[1..][..i] == a[..i + 1][1..] && b[1..][..i] == b[..i + 1][1..];
    }
  }

  /** What a listing is sorted by: newest first, then by two more strings. Assets leave the last one empty. */
  datatype Entry = Entry(stamp: string, path: string, lang: string, rest: string)

  /** The comparison both listings hand to the library sort. */
  predicate Before(x: Entry, y: Entry) {
    if x.stamp == y.stamp then
      if x.path == y.path then Less(x.lang, y.lang) else Less(x.path, y.path)
    else Less(y.stamp, x.stamp)
  }

  lemma BeforeTotal(x: Entry, y: Entry)
    ensures !(Before(x, y) && Before(y, x))
    ensures Before(x, y) || Before(y, x) || (x.stamp, x.path, x.lang) == (y.stamp, y.path, y.lang)
  {
    LessTrichotomy(x.stamp, y.stamp);
    LessTrichotomy(x.path, y.path);
    LessTrichotomy(x.lang, y.lang);
  }

  lemma BeforeTransitive(x: Entry, y: Entry, z: Entry)
    requires !Before(y, x) && !Before(z, y)
    ensures !Before(z, x)
  {
    LessTrichotomy(x.stamp, y.stamp);
    LessTrichotomy(y.stamp, z.stamp);
    LessTrichotomy(x.path, y.path);
    LessTrichotomy(y.path, z.path);
    LessTrichotomy(x.lang, y.lang);
    LessTrichotomy(y.lang, z.lang);
    LessTrichotomy(x.stamp, z.stamp);
    LessTrichotomy(x.path, z.path);
    LessTrichotomy(x.lang, z.lang);
    if Less(y.stamp, x.stamp) && Less(z.stamp, y.stamp) { LessTransitive(z.stamp, y.stamp, x.stamp); }
    if Less(x.path, y.path) && Less(y.path, z.path) { LessTransitive(x.path, y.path, z.path); }
    if Less(x.lang, y.lang) && Less(y.lang, z.lang) { LessTransitive(x.lang, y.lang, z.lang); }
  }

  predicate Ordered(xs: seq<Entry>) {
    forall i, j :: 0 <= i < j < |xs| ==> !Before(xs[j], xs[i])
  }

  /** The walk visits every file once, so a path names one entry. */
  predicate OnePerPath(xs: seq<Entry>) {
    forall i, j :: 0 <= i < |xs| && 0 <= j < |xs| && xs[i].path == xs[j].path ==> xs[i] == xs[j]
  }

  /** An entry sorted into place, after every entry that does not come later. */
  function Inserted(xs: seq<Entry>, x: Entry): seq<Entry> {
    if xs == [] || !Before(x, xs[|xs| - 1]) then xs + [x] else Inserted(xs[..|xs| - 1], x) + [xs[|xs| - 1]]
  }

  /** The stable sort of the entries as collected. */
  function Listing(collected: seq<Entry>): seq<Entry> {
    if collected == [] then [] else Inserted(Listing(collected[..|collected| - 1]), collected[|collected| - 1])
  }

  ghost predicate IsListing(collected: seq<Entry>, sorted: seq<Entry>) {
    Ordered(sorted) && multiset(sorted) == multiset(collected)
  }

  lemma {:induction false} InsertedOrdered(xs: seq<Entry>, x: Entry)
    requires Ordered(xs)
    ensures Ordered(Inserted(xs, x)) && multiset(Inserted(xs, x)) == multiset(xs) + multiset{x}
  {
    if xs == [] {
    } else if !Before(x, xs[|xs| - 1]) {
      forall i | 0 <= i < |xs| ensures !Before(x, xs[i]) {
        if i < |xs| - 1 { BeforeTransitive(xs[i], xs[|xs| - 1], x); }
      }
    } else {
      var init, last := xs[..|xs| - 1], xs[|xs| - 1];
      InsertedOrdered(init, x);
      BeforeTotal(x, last);
      assert xs == init + [last];
      var placed := Inserted(init, x);
      forall i | 0 <= i < |placed| ensures !Before(last, placed[i]) {
        assert placed[i] in multiset(init) + multiset{x};
        if placed[i] != x { assert placed[i] in init; }
      }
    }
  }

  /** The listing is ordered and holds the collected entries, each as often. */
  lemma {:induction false} ListingSorts(collected: seq<Entry>)
    ensures IsListing(collected, Listing(collected))
  {
    if collected != [] {
      var init, last := collected[..|collected| - 1], collected[|collected| - 1];
      ListingSorts(init);
      InsertedOrdered(Listing(init), last);
      assert collected == init + [last];
    }
  }

  /** The greater stamp comes first; with equal stamps the smaller path, and with equal paths the smaller language. */
  predicate NewestFirst(xs: seq<Entry>) {
    forall i, j :: 0 <= i < j < |xs| ==>
      && !Less(xs[i].stamp, xs[j].stamp)
      && (xs[i].stamp == xs[j].stamp ==> !Less(xs[j].path, xs[i].path))
      && (xs[i].stamp == xs[j].stamp && xs[i].path == xs[j].path ==> !Less(xs[j].lang, xs[i].lang))
  }

  lemma ListingNewestFirst(collected: seq<Entry>)
    ensures NewestFirst(Listing(collected)) && multiset(Listing(collected)) == multiset(collected)
    ensures |Listing(collected)| == |collected|
  {
    var xs := Listing(collected);
    ListingSorts(collected);
    SameLength(xs, collected);
    forall i, j | 0 <= i < j < |xs|
      ensures !Less(xs[i].stamp, xs[j].stamp)
      ensures xs[i].stamp == xs[j].stamp ==> !Less(xs[j].path, xs[i].path)
      ensures xs[i].stamp == xs[j].stamp && xs[i].path == xs[j].path ==> !Less(xs[j].lang, xs[i].lang)
    {
      assert !Before(xs[j], xs[i]);
      LessTrichotomy(xs[i].stamp, xs[j].stamp);
      LessTrichotomy(xs[i].path, xs[j].path);
    }
  }

  method InsertInOrder(xs: seq<Entry>, x: Entry) returns (ys: seq<Entry>)
    ensures ys == Inserted(xs, x)
  {
    var k := |xs|;
    assert xs[..k] == xs && xs[k..] == [];
    while k > 0 && Before(x, xs[k - 1])
      invariant 0 <= k <= |xs| && Inserted(xs, x) == Inserted(xs[..k], x) + xs[k..]
    {
      k := k - 1;
      assert xs[..k + 1][..k] == xs[..k] && xs[k..] == [xs[k]] + xs[k + 1..];
    }
    ys := xs[..k] + [x] + xs[k..];
  }

  /** The library's stable sort, by insertion. */
  method SortStable(entries: seq<Entry>) returns (sorted: seq<Entry>)
    ensures sorted == Listing(entries)
  {
    sorted := [];
    var i := 0;
    while i < |entries|
      invariant 0 <= i <= |entries| && sorted == Listing(entries[..i])
    {
      assert entries[..i + 1][..i] == entries[..i];
      sorted := InsertInOrder(sorted, entries[i]);
      i := i + 1;
    }
    assert entries[..|entries|] == entries;
  }

  /** However the walk went, there is one sorted listing. */
  lemma {:induction false} OneListing(a: seq<Entry>, b: seq<Entry>)
    requires Ordered(a) && Ordered(b) && multiset(a) == multiset(b) && OnePerPath(a)
    ensures a == b
  {
    if a == [] {
      SameLength(a, b);
    } else {
      SameFirst(a, b);
      TailMultiset(a);
      TailMultiset(b);
      OneListing(a[1..], b[1..]);
    }
  }

  lemma TailMultiset(a: seq<Entry>)
    requires a != []
    ensures a == [a[0]] + a[1..] && multiset(a[1..]) == multiset(a) - multiset{a[0]}
  {
    assert a == [a[0]] + a[1..];
  }

  lemma SameFirst(a: seq<Entry>, b: seq<Entry>)
    requires a != [] && Ordered(a) && Ordered(b) && multiset(a) == multiset(b) && OnePerPath(a)
    ensures b != [] && a[0] == b[0]
  {
    assert a[0] in multiset(b);
    var j :| 0 <= j < |b| && b[j] == a[0];
    assert b[0] in multiset(a);
    var i :| 0 <= i < |a| && a[i] == b[0];
    BeforeTotal(a[0], b[0]);
  }

  // ---------- Windows ----------

  datatype Window = Window(entries: seq<Entry>, total: nat, next: Option<string>)

  /** The window of at most `limit` entries from an offset, and the cursor after it if anything is left. */
  function WindowAt(listing: seq<Entry>, offset: nat, limit: nat): Window {
    var from := Min(offset, |listing|);
    var to := Min(from + limit, |listing|);
    Window(listing[from..to], |listing|, if to < |listing| then Some(Itoa(to)) else None)
  }

  /**
   * What is in a window, of entries as collected: newest first, as many as there are and asked for, after `offset`
   * entries that come first and before the rest; the total counts them all, and the cursor is there if any are left.
   */
  ghost predicate ShowsNewest(w: Window, collected: seq<Entry>, offset: nat, limit: nat) {
    exists before, after :: IsBetween(w, collected, offset, limit, before, after)
  }

  predicate IsBetween(w: Window, collected: seq<Entry>, offset: nat, limit: nat,
                      before: seq<Entry>, after: seq<Entry>)
  {
    && NewestFirst(before + w.entries + after) && multiset(before + w.entries + after) == multiset(collected)
    && |before| == Min(offset, |collected|) && |w.entries| == Min(limit, |collected| - |before|)
    && w.total == |collected| && w.next == if after == [] then None else Some(Itoa(|before| + |w.entries|))
  }

  lemma ThreeParts(xs: seq<Entry>, from: nat, to: nat)
    requires from <= to <= |xs|
    ensures xs[..from] + xs[from..to] + xs[to..] == xs
  {
  }

  lemma PartsShow(w: Window, xs: seq<Entry>, collected: seq<Entry>, offset: nat, limit: nat,
                  before: seq<Entry>, after: seq<Entry>)
    requires before + w.entries + after == xs && NewestFirst(xs) && multiset(xs) == multiset(collected)
    requires |before| == Min(offset, |collected|) && |w.entries| == Min(limit, |collected| - |before|)
    requires w.total == |collected| && w.next == if after == [] then None else Some(Itoa(|before| + |w.entries|))
    ensures ShowsNewest(w, collected, offset, limit)
  {
    assert IsBetween(w, collected, offset, limit, before, after);
  }

  lemma WindowShowsNewest(collected: seq<Entry>, offset: nat, limit: nat)
    ensures ShowsNewest(WindowAt(Listing(collected), offset, limit), collected, offset, limit)
  {
    var xs := Listing(collected);
    var from := Min(offset, |xs|);
    var to := Min(from + limit, |xs|);
    ListingNewestFirst(collected);
    ThreeParts(xs, from, to);
    PartsShow(WindowAt(xs, offset, limit), xs, collected, offset, limit, xs[..from], xs[to..]);
  }

  const ASSET_DEFAULT: nat := 100
  const ASSET_MOST: nat := 500

  /** Pages: no positive limit means all of them. */
  function PageLimit(limit: int, total: nat): nat {
    if limit <= 0 then total else limit
  }

  /** Assets: 100 unless given, and never more than 500. */
  function AssetLimit(limit: int): nat {
    if limit <= 0 then ASSET_DEFAULT else if limit > ASSET_MOST then ASSET_MOST else limit
  }

  /** The window both listings cut from their sorted slice. */
  method CutWindow(listing: seq<Entry>, offset: nat, limit: nat) returns (w: Window)
    ensures w == WindowAt(listing, offset, limit)
  {
    var from := offset;
    if from > |listing| { from := |listing|; }
    var end := from + limit;
    if end > |listing| { end := |listing|; }
    w := Window(listing[from..end], |listing|, if end < |listing| then Some(Itoa(end)) else None);
  }

  /** What a request for a page of the listing is answered with. */
  method ListPages(collected: seq<Entry>, cursor: string, limit: int) returns (res: Result<Window, CursorError>)
    ensures res == match ParseOffset(cursor) {
                     case Err(e) => Err(e)
                     case Ok(offset) => Ok(WindowAt(Listing(collected), offset, PageLimit(limit, |Listing(collected)|)))
                   }
    ensures res.Ok? ==>
              var offset := ParseOffset(cursor).value;
              ShowsNewest(res.value, collected, offset, if limit > 0 then limit else |collected|)
  {
    var pages := SortStable(collected);
    var offset := ParseOffset(cursor);
    if offset.Err? { return Err(offset.error); }
    var most := limit;
    if most <= 0 { most := |pages|; }
    var w := CutWindow(pages, offset.value, most);
    WindowShowsNewest(collected, offset.value, most);
    ListingNewestFirst(collected);
    res := Ok(w);
  }

  method ListAssets(collected: seq<Entry>, cursor: string, maxResults: int) returns (res: Result<Window, CursorError>)
    ensures res == match ParseOffset(cursor) {
                     case Err(e) => Err(e)
                     case Ok(offset) => Ok(WindowAt(Listing(collected), offset, AssetLimit(maxResults)))
                   }
    ensures res.Ok? ==>
              var offset, most := ParseOffset(cursor).value, if maxResults > 0 then Min(maxResults, 500) else 100;
              ShowsNewest(res.value, collected, offset, most)
  {
    var most := maxResults;
    if most <= 0 { most := 100; }
    if most > 500 { most := 500; }
    var offset := ParseOffset(cursor);
    if offset.Err? { return Err(offset.error); }
    var out := SortStable(collected);
    var w := CutWindow(out, offset.value, most);
    WindowShowsNewest(collected, offset.value, most);
    res := Ok(w);
  }

  lemma SameLength(a: seq<Entry>, b: seq<Entry>)
    requires multiset(a) == multiset(b)
    ensures |a| == |b|
  {
    assert |multiset(a)| == |a| && |multiset(b)| == |b|;
  }

  // ---------- Following the cursors ----------

  /** All the entries a client sees following the cursors, each read back from its decimal form. */
  function Walk(listing: seq<Entry>, cursor: string, limit: nat, fuel: nat): Option<seq<Entry>>
    decreases fuel
  {
    match ParseOffset(cursor)
    case Err(_) => None
    case Ok(offset) =>
      var w := WindowAt(listing, offset, limit);
      if w.next.None? then Some(w.entries)
      else if fuel == 0 then None
      else match Walk(listing, w.next.value, limit, fuel - 1)
        case None => None
        case Some(rest) => Some(w.entries + rest)
  }

  /** From any cursor that parses, the rest of the listing is seen, every entry once and in order. */
  lemma {:induction false} WalkSeesRest(listing: seq<Entry>, cursor: string, limit: nat, fuel: nat)
    requires |listing| <= MAX_INT && limit > 0 && ParseOffset(cursor).Ok?
    requires fuel * limit + ParseOffset(cursor).value + limit >= |listing|
    ensures Walk(listing, cursor, limit, fuel) == Some(listing[Min(ParseOffset(cursor).value, |listing|)..])
    decreases fuel
  {
    var from := Min(ParseOffset(cursor).value, |listing|);
    var to := Min(from + limit, |listing|);
    if to < |listing| {
      OffsetRoundTrip(to);
      assert fuel * limit == (fuel - 1) * limit + limit;
      WalkSeesRest(listing, Itoa(to), limit, fuel - 1);
      assert listing[from..] == listing[from..to] + listing[to..];
    } else {
      assert listing[from..to] == listing[from..];
    }
  }

  /**
   * Following the cursors from the start shows each collected entry exactly once, in the sorted order, after at
   * most one request per entry.
   */
  lemma WalkConserves(collected: seq<Entry>, limit: nat)
    requires |collected| <= MAX_INT && limit > 0
    ensures var seen := Walk(Listing(collected), "", limit, |collected|);
      seen == Some(Listing(collected)) && NewestFirst(seen.value) && multiset(seen.value) == multiset(collected)
  {
    ListingNewestFirst(collected);
    WalkSeesAll(Listing(collected), limit);
  }

  lemma WalkSeesAll(listing: seq<Entry>, limit: nat)
    requires |listing| <= MAX_INT && limit > 0
    ensures Walk(listing, "", limit, |listing|) == Some(listing)
  {
    assert |listing| * limit >= |listing|;
    WalkSeesRest(listing, "", limit, |listing|);
  }

  /** Two walks of the same files in different orders give the same listing, and so page through the same answers. */
  lemma WalkOrderIrrelevant(one: seq<Entry>, other: seq<Entry>)
    requires multiset(one) == multiset(other) && OnePerPath(one)
    ensures Listing(one) == Listing(other)
  {
    ListingSorts(one);
    ListingSorts(other);
    var a := Listing(one);
    forall i, j | 0 <= i < |a| && 0 <= j < |a| && a[i].path == a[j].path ensures a[i] == a[j] {
      assert a[i] in multiset(one) && a[j] in multiset(one);
      var m :| 0 <= m < |one| && one[m] == a[i];
      var n :| 0 <= n < |one| && one[n] == a[j];
    }
    OneListing(a, Listing(other));
  }
}
