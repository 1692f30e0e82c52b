/** Where a relative path leads: a look-up, a write and an opening each trim and clean it in a way of their own. */
module Places {
  import opened Wrappers
  import opened Text
  import opened Paths

  // ---------- The places of a file in a directory ----------

  function DirStem(dir: string): string {
    if dir == "" then "" else dir + "/"
  }

  /** The directory a path cleans to, the root being empty. */
  function CleanDir(s: string): string {
    if s == "" || Clean(s) == "." then "" else Clean(s)
  }

  predicate Allowed(s: string) {
    !Contains(s, "\\") && !Contains(s, "..")
  }

  /** A file name that the guard lets through. */
  predicate FileName(w: string) {
    w != "" && w != "." && w != ".." && '/' !in w && Allowed(w) && Trimmed(w)
  }

  lemma SliceAllowed(s: string, i: nat, j: nat)
    requires Allowed(s) && i <= j <= |s|
    ensures Allowed(s[i..j])
  {
    assert s == s[..i] + s[i..j] + s[j..];
    if Contains(s[i..j], "\\") { PartContains(s[..i], s[i..j], s[j..], "\\"); }
    if Contains(s[i..j], "..") { PartContains(s[..i], s[i..j], s[j..], ".."); }
  }

  lemma TrimAllowed(s: string)
    requires Allowed(s)
    ensures Allowed(TrimLeft(s)) && Allowed(TrimSpace(s)) && Allowed(TrimRight(s))
  {
    LeftAllowed(s);
    RightAllowed(s);
    RightAllowed(TrimLeft(s));
  }

  lemma LeftAllowed(s: string)
    requires Allowed(s)
    ensures Allowed(TrimLeft(s))
  {
    TrimLeftShape(s);
    SliceAllowed(s, |s| - |TrimLeft(s)|, |s|);
    assert s[|s| - |TrimLeft(s)|..|s|] == TrimLeft(s);
  }

  lemma RightAllowed(s: string)
    requires Allowed(s)
    ensures Allowed(TrimRight(s))
  {
    TrimRightShape(s);
    SliceAllowed(s, 0, |TrimRight(s)|);
    assert s[0..|TrimRight(s)|] == TrimRight(s);
  }

  /** What the guard makes of a path without odd characters. */
  lemma PlaceIs(s: string)
    requires Allowed(s)
    ensures var t := TrimSpace(s); ReadPlace(s) == if HasPrefix(t, "/") then None else Some(CleanDir(t))
  {
    TrimAllowed(s);
  }

  lemma {:induction false} KeptJoined(segs: seq<string>)
    requires ".." !in segs && forall p :: p in segs ==> '/' !in p
    ensures var k := Kept(segs);
      k != [] ==> Join(k, '/') != "" && Join(k, '/') != "." && SplitOn(Join(k, '/'), '/') == k
  {
    var k := Kept(segs);
    CleanKept(segs);
    if k != [] {
      SplitJoin(k, '/');
      SplitWord(".", '/');
      assert SplitOn("", '/') == [""];
      assert k[0] in k;
    }
  }

  /** A relative directory, by the segments that cleaning keeps. */
  lemma CleanDirKept(s: string)
    requires s != "" && s[0] != '/' && Allowed(s)
    ensures CleanDir(s) == Join(Kept(SplitOn(s, '/')), '/')
    ensures Kept(SplitOn(s, '/')) != [] ==> CleanDir(s) != "" && SplitOn(CleanDir(s), '/') == Kept(SplitOn(s, '/'))
  {
    NoDotDotSegment(s);
    JoinSplit(s, '/');
    CleanKept(SplitOn(s, '/'));
    KeptJoined(SplitOn(s, '/'));
  }

  lemma CleanDirNormal(s: string)
    requires s != "" && s[0] != '/' && Allowed(s)
    ensures CleanDir(s) == "" || Normal(CleanDir(s))
    ensures |CleanDir(s)| <= |s|
  {
    CleanIsNormal(s);
  }

  lemma CleanWithFile(s: string, w: string)
    requires s != "" && s[0] != '/' && Allowed(s) && FileName(w)
    ensures Clean(s + "/" + w) == DirStem(CleanDir(s)) + w
  {
    var segs := SplitOn(s, '/');
    NoDotDotSegment(s);
    CleanDirKept(s);
    SplitLast(s, w);
    CleanKept(segs + [w]);
    assert (segs + [w])[..|segs|] == segs;
    if Kept(segs) != [] { JoinConcat(Kept(segs), [w]); } else { assert Kept(segs) + [w] == [w]; }
  }

  lemma {:induction false} TrimLeftBefore(n: string, t: string)
    requires t != "" && !IsSpace(t[0])
    ensures TrimLeft(n + t) == TrimLeft(n) + t
  {
    if n == "" {
      assert n + t == t && TrimLeft(n) + t == t;
    } else {
      assert (n + t)[1..] == n[1..] + t;
      TrimLeftBefore(n[1..], t);
    }
  }

  lemma TrimWithFile(n: string, w: string)
    requires FileName(w)
    ensures TrimSpace(n + "/" + w) == TrimLeft(n) + "/" + w
  {
    TrimLeftBefore(n, "/" + w);
    assert n + ("/" + w) == n + "/" + w && TrimLeft(n) + ("/" + w) == TrimLeft(n) + "/" + w;
    var t := TrimLeft(n) + "/" + w;
    assert t[|t| - 1] == w[|w| - 1];
  }

  lemma WithFileAllowed(s: string, w: string)
    requires Allowed(s) && FileName(w)
    ensures Allowed(s + "/" + w)
  {
    JoinedContains(s, w, "\\");
    JoinedContains(s, w, "..");
  }

  /** What stands before the file name in the place a look-up comes to. */
  function ReadStem(dir: string): Option<string> {
    if dir == "" then Some("")
    else if TrimLeft(dir) == "" || TrimLeft(dir)[0] == '/' then None
    else Some(DirStem(CleanDir(TrimLeft(dir))))
  }

  /** What stands before it in the place a write comes to. */
  function WriteStem(dir: string): Option<string> {
    match ReadPlace(dir)
    case Some(d) => Some(DirStem(d))
    case None => None
  }

  function At(stem: Option<string>, w: string): Option<string> {
    match stem
    case Some(s) => Some(s + w)
    case None => None
  }

  lemma ReadPlaceIs(n: string, w: string)
    requires (n == "" || Normal(n)) && FileName(w)
    ensures ReadPlace(DirStem(n) + w) == At(ReadStem(n), w)
  {
    if n == "" {
      assert DirStem(n) + w == w && "" + w == w;
      TrimmedFixed(w);
      PlaceIs(w);
      JoinNormal("", w);
      assert w[0] in w;
    } else {
      var l := TrimLeft(n);
      TrimAllowed(n);
      TrimWithFile(n, w);
      WithFileAllowed(n, w);
      PlaceIs(n + "/" + w);
      if l != "" && l[0] != '/' { CleanWithFile(l, w); }
    }
  }

  lemma NormalDir(n: string, w: string)
    requires Normal(n) && '/' !in w && w != "" && w != "." && w != ".."
    ensures Dir(n + "/" + w) == n && Base(n + "/" + w) == w
  {
    var segs := SplitOn(n, '/');
    SplitLast(n, w);
    assert (segs + [w])[..|segs|] == segs;
    assert CleanTail(segs + [w]) == segs + [w];
    JoinTrailing(segs);
    JoinSplit(n, '/');
    SplitLast(n, "");
    assert n + "/" + "" == n + "/";
    NormalStarts(n);
    CleanKept(segs + [""]);
    assert (segs + [""])[..|segs|] == segs;
    AllKept(segs);
  }

  lemma WritePlaceIs(n: string, w: string)
    requires (n == "" || Normal(n)) && '/' !in w && w != "" && w != "." && w != ".."
    ensures WritePlace(DirStem(n) + w) == At(WriteStem(n), w)
  {
    if n == "" {
      assert DirStem(n) + w == w && "" + w == w;
      SplitWord(w, '/');
      assert [w][..0] + [""] == [""];
      assert SplitOn("", '/') == [""] && [""][..0] == [];
      assert CleanTail([w]) == [w] && [] + [w] == [w];
    } else {
      NormalDir(n, w);
      NormalStarts(n);
      PlaceIs(n);
      match ReadPlace(n)
      case Some(d) => ChainJoined(d, w);
      case None =>
    }
  }

  lemma ChainJoined(d: string, w: string)
    ensures Join((if d == "" then [] else SplitOn(d, '/')) + [w], '/') == DirStem(d) + w
  {
    if d == "" {
      assert [] + [w] == [w] && "" + w == w;
    } else {
      JoinConcat(SplitOn(d, '/'), [w]);
      JoinSplit(d, '/');
    }
  }

  /** A file in the root has one place. */
  lemma OwnPlace(w: string)
    requires FileName(w)
    ensures ReadPlace(w) == Some(w) == WritePlace(w)
  {
    ReadPlaceIs("", w);
    WritePlaceIs("", w);
    assert DirStem("") + w == w && "" + w == w;
  }

  // ---------- When the places are the same ----------

  /** Trailing white space of a directory makes a difference, wherever it is. */
  lemma EdgeKept(u: string)
    requires u != "" && u[0] != '/' && Allowed(u) && TrimRight(u) != ""
    ensures CleanDir(TrimRight(u)) == CleanDir(u) <==> TrimRight(u) == u
  {
    var p := TrimRight(u);
    TrimRightShape(u);
    TrimAllowed(u);
    if p != u {
      TrailingSpaces(u);
      assert p + u[|p|..] == u;
      KeptApart(p, u[|p|..]);
      CleanDirKept(u);
      CleanDirKept(p);
    }
  }

  lemma KeptLast(init: seq<string>, last: string)
    ensures Kept(init + [last]) == if last == "" || last == "." then Kept(init) else Kept(init) + [last]
  {
    assert (init + [last])[..|init|] == init;
  }

  lemma KeptApart(p: string, w: string)
    requires '/' !in w && w != "" && IsSpace(w[|w| - 1])
    ensures Kept(SplitOn(p, '/')) != Kept(SplitOn(p + w, '/')) && Kept(SplitOn(p + w, '/')) != []
  {
    SplitAppend(p, w, '/');
    var q := SplitOn(p, '/');
    assert q == q[..|q| - 1] + [q[|q| - 1]];
    LastApart(q[..|q| - 1], q[|q| - 1], w);
  }

  lemma OtherLast(k: seq<string>, a: string, b: string)
    requires |a| != |b|
    ensures k + [b] != k && k + [b] != k + [a] && k + [b] != []
  {
    assert (k + [b])[|k|] == b && (k + [a])[|k|] == a;
  }

  lemma LastApart(init: seq<string>, last: string, w: string)
    requires w != "" && IsSpace(w[|w| - 1])
    ensures Kept(init + [last]) != Kept(init + [last + w]) && Kept(init + [last + w]) != []
  {
    KeptLast(init, last);
    KeptLast(init, last + w);
    assert (last + w)[|last + w| - 1] == w[|w| - 1];
    OtherLast(Kept(init), last, last + w);
  }

  lemma {:induction false} TrailingSpaces(u: string)
    ensures |TrimRight(u)| <= |u|
    ensures forall i :: |TrimRight(u)| <= i < |u| ==> IsSpace(u[i])
    ensures '/' !in u[|TrimRight(u)|..]
  {
    TrimRightShape(u);
    if u != "" && IsSpace(u[|u| - 1]) { TrailingSpaces(u[..|u| - 1]); }
  }

  /** What was read is what is written, exactly if the directory has no white space at its end. */
  lemma StemsAgree(n: string)
    requires n == "" || Normal(n)
    requires WriteStem(n).Some?
    ensures ReadStem(n) == WriteStem(n) <==> TrimRight(n) == n
  {
    if n != "" {
      var l := TrimLeft(n);
      TrimAllowed(n);
      PlaceIs(n);
      TrimSides(n);
      if l != "" && l[0] != '/' {
        EdgeKept(l);
        CleanDirKept(l);
        DirStemApart(CleanDir(l), CleanDir(TrimRight(l)));
      }
    }
  }

  /** Trimming on the right does the same before and after trimming on the left, unless nothing is left. */
  lemma TrimSides(n: string)
    ensures TrimLeft(n) != "" ==> TrimRight(TrimLeft(n)) != "" && (TrimRight(n) == n <==> TrimSpace(n) == TrimLeft(n))
    ensures TrimLeft(n) == "" ==> TrimRight(n) == ""
    ensures HasPrefix(TrimSpace(n), "/") <==> HasPrefix(TrimLeft(n), "/")
  {
    TrimLeftShape(n);
    TrimRightShape(n);
    TrimRightShape(TrimLeft(n));
    var l := TrimLeft(n);
    if l == "" {
      AllSpaces(n);
    } else {
      assert n[|n| - 1] == l[|l| - 1];
      FirstStays(l);
    }
  }

  lemma {:induction false} AllSpaces(n: string)
    requires TrimLeft(n) == ""
    ensures TrimRight(n) == "" && forall i :: 0 <= i < |n| ==> IsSpace(n[i])
  {
    if n != "" {
      AllSpaces(n[1..]);
      forall i | 0 <= i < |n| ensures IsSpace(n[i]) { if i > 0 { assert n[i] == n[1..][i - 1]; } }
      NothingLeft(n);
    }
  }

  lemma {:induction false} NothingLeft(n: string)
    requires forall i :: 0 <= i < |n| ==> IsSpace(n[i])
    ensures TrimRight(n) == ""
  {
    if n != "" { NothingLeft(n[..|n| - 1]); }
  }

  lemma {:induction false} FirstStays(l: string)
    requires l != "" && !IsSpace(l[0])
    ensures TrimRight(l) != "" && TrimRight(l)[0] == l[0]
  {
    if IsSpace(l[|l| - 1]) { FirstStays(l[..|l| - 1]); }
  }

  lemma DirStemApart(a: string, b: string)
    ensures DirStem(a) == DirStem(b) <==> a == b
    ensures DirStem(a) != "_"
  {
    if a != "" { assert DirStem(a)[|a|] == '/'; }
    if a != "" && b != "" && DirStem(a) == DirStem(b) {
      assert DirStem(a)[..|a|] == a && DirStem(b)[..|b|] == b;
    }
  }

  /** A directory is looked up under its own name exactly if it has no white space in front. */
  lemma ReadsItself(d: string)
    requires d == "" || Normal(d)
    ensures ReadStem(d) == Some(DirStem(d)) <==> TrimLeft(d) == d
  {
    if d != "" {
      var l := TrimLeft(d);
      TrimLeftShape(d);
      TrimAllowed(d);
      NormalStarts(d);
      NormalClean(d);
      if l != "" && l[0] != '/' {
        CleanDirNormal(l);
        DirStemApart(CleanDir(l), d);
      }
    }
  }

  /** And is written under its own name exactly if it has none at either end. */
  lemma WritesItself(d: string)
    requires d == "" || Normal(d)
    ensures WriteStem(d) == Some(DirStem(d)) <==> Trimmed(d)
    ensures Trimmed(d) ==> ReadPlace(d) == Some(d)
  {
    if d != "" {
      PlaceIs(d);
      NormalStarts(d);
      NormalClean(d);
      EdgesShorter(d);
      TrimAllowed(d);
      var t := TrimSpace(d);
      if Trimmed(d) { TrimmedFixed(d); }
      else if t != "" && t[0] != '/' {
        CleanDirNormal(t);
        DirStemApart(CleanDir(t), d);
      }
    }
  }

  lemma EdgesShorter(s: string)
    ensures |TrimSpace(s)| <= |s| && (|TrimSpace(s)| == |s| ==> Trimmed(s))
    ensures |TrimRight(s)| <= |s|
  {
    var l := TrimLeft(s);
    TrimLeftShape(s);
    TrimRightShape(l);
    TrimRightShape(s);
    TrimSpaceTrims(s);
    if |TrimSpace(s)| == |s| {
      assert l == s[0..] == s;
      assert TrimRight(l) == l[..|l|] == l;
    }
  }
}
