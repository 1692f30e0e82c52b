/** Slash-separated paths: the lexical part of Go's `path` package and of the path guard. */
module Paths {
  import opened Wrappers
  import opened Text

  // ---------- path.Clean ----------

  /** One segment after `acc`: empty and "." vanish, ".." takes back a segment if there is one to take. */
  function CleanStep(acc: seq<string>, seg: string, rooted: bool): seq<string> {
    if seg == "" || seg == "." then acc
    else if seg != ".." then acc + [seg]
    else if acc != [] && acc[|acc| - 1] != ".." then acc[..|acc| - 1]
    else if rooted then acc
    else acc + [seg]
  }

  function CleanSegments(segs: seq<string>, rooted: bool): seq<string> {
    if segs == [] then [] else CleanStep(CleanSegments(segs[..|segs| - 1], rooted), segs[|segs| - 1], rooted)
  }

  function Clean(s: string): string {
    var rooted := HasPrefix(s, "/");
    var body := Join(CleanSegments(SplitOn(s, '/'), rooted), '/');
    if rooted then "/" + body else if body == "" then "." else body
  }

  /** `filepath.Join` of two elements: empty ones are left out. */
  function JoinPath(a: string, b: string): string {
    if a == "" then (if b == "" then "" else Clean(b)) else if b == "" then Clean(a) else Clean(a + "/" + b)
  }

  /** The segments up to the last one, joined again. */
  function Dir(s: string): string {
    var segs := SplitOn(s, '/');
    Clean(Join(segs[..|segs| - 1] + [""], '/'))
  }

  function Base(s: string): string {
    if s == "" then "." else
      var segs := CleanTail(SplitOn(s, '/'));
      if segs == [] then "/" else segs[|segs| - 1]
  }

  /** Without the empty segments that trailing slashes leave. */
  function CleanTail(segs: seq<string>): seq<string> {
    if segs != [] && segs[|segs| - 1] == "" then CleanTail(segs[..|segs| - 1]) else segs
  }

  /** Nothing has the base name "."; slashes alone have "/". */
  lemma EmptyPaths()
    ensures Base("") == "." && Base("/") == "/" && JoinPath("", "") == "" && Clean("") == "." && Clean("/") == "/"
  {
    SplitWord("", '/');
    assert SplitOn("/", '/') == ["", ""] && ["", ""][..1] == [""] && [""][..0] == [];
  }

  // ---------- The path guard ----------

  datatype PathError = Backslash | Absolute | Traversal

  function ValidateRelative(input: string): Result<string, PathError> {
    var s := TrimSpace(input);
    if s == "" then Ok("")
    else if Contains(s, "\\") then Err(Backslash)
    else if HasPrefix(s, "/") then Err(Absolute)
    else if Contains(s, "..") then Err(Traversal)
    else if Clean(s) == "." then Ok("")
    else Ok(Clean(s))
  }

  predicate WithinRoot(root: string, candidate: string) {
    var r, c := Clean(root), Clean(candidate);
    r == c || HasPrefix(c, if HasSuffix(r, "/") then r else r + "/")
  }

  function NormalizeChain(rel: string): Result<seq<string>, PathError> {
    if rel == "" || rel == "." then Ok([])
    else match ValidateRelative(rel)
      case Err(e) => Err(e)
      case Ok(clean) => if clean == "" || clean == "." then Ok([]) else Ok(SplitOn(clean, '/'))
  }

  /** The file that looking up a relative path comes to: the path is trimmed and cleaned as a whole. */
  function ReadPlace(rel: string): Option<string> {
    match ValidateRelative(rel)
    case Ok(place) => Some(place)
    case Err(_) => None
  }

  /** The file that writing or removing touches: the directory alone is trimmed and cleaned, and walked down. */
  function WritePlace(rel: string): Option<string> {
    match NormalizeChain(Dir(rel))
    case Ok(chain) => Some(Join(chain + [Base(rel)], '/'))
    case Err(_) => None
  }

  /** The file that opening an existing one comes to: the path is cleaned first, and then its directory again. */
  function OpenPlace(rel: string): Option<string> {
    match ValidateRelative(rel)
    case Ok(clean) => WritePlace(clean)
    case Err(_) => None
  }

  // ---------- Clean relative paths ----------

  predicate PlainSegment(seg: string) {
    seg != "" && seg != "." && seg != ".." && '/' !in seg && Trimmed(seg)
  }

  predicate PlainSegments(segs: seq<string>) {
    forall i :: 0 <= i < |segs| ==> PlainSegment(segs[i])
  }

  /** A relative path that the guard passes through unchanged. */
  predicate PlainPath(s: string) {
    PlainSegments(SplitOn(s, '/')) && !Contains(s, "\\") && !Contains(s, "..")
  }

  lemma {:induction false} PlainSegmentsClean(segs: seq<string>, rooted: bool)
    requires PlainSegments(segs)
    ensures CleanSegments(segs, rooted) == segs
  {
    if segs != [] {
      PlainSegmentsClean(segs[..|segs| - 1], rooted);
      assert PlainSegment(segs[|segs| - 1]);
      assert segs == segs[..|segs| - 1] + [segs[|segs| - 1]];
    }
  }

  /** A ".." takes back the segment before it. With none to take back it vanishes at the root and stays elsewhere. */
  lemma GoesUp(segs: seq<string>, rooted: bool)
    requires PlainSegments(segs)
    ensures CleanSegments(segs + [".."], rooted) ==
              if |segs| > 0 then segs[..|segs| - 1] else if rooted then [] else [".."]
  {
    PlainSegmentsClean(segs, rooted);
    var all := segs + [".."];
    assert all[..|all| - 1] == segs && all[|all| - 1] == "..";
    if |segs| > 0 { assert PlainSegment(segs[|segs| - 1]); } else { assert segs + [".."] == [".."]; }
  }

  /** What has stayed is not taken back either. */
  lemma GoesUpTwice(rooted: bool)
    ensures CleanSegments(["..", ".."], rooted) == if rooted then [] else ["..", ".."]
  {
    GoesUp([], rooted);
    assert [] + [".."] == [".."] && ["..", ".."][..1] == [".."];
    assert CleanSegments(["..", ".."], rooted) == CleanStep(CleanSegments([".."], rooted), "..", rooted);
  }

  /** Segment boundaries survive appending one more segment. */
  lemma {:induction false} SplitLast(s: string, w: string)
    requires '/' !in w
    ensures SplitOn(s + "/" + w, '/') == SplitOn(s, '/') + [w]
  {
    var t := s + "/" + w;
    if s == [] {
      SplitWord(w, '/');
      assert t[1..] == w;
    } else {
      assert t[1..] == s[1..] + "/" + w;
      SplitLast(s[1..], w);
    }
  }

  /** A path starts and ends as its first and last segments do. */
  predicate EndsMatch(segs: seq<string>, s: string) {
    && |segs| > 0
    && (segs[0] != "" ==> |s| > 0 && s[0] == segs[0][0])
    && (segs[|segs| - 1] != "" ==> |s| > 0 && s[|s| - 1] == segs[|segs| - 1][|segs[|segs| - 1]| - 1])
  }

  lemma {:induction false} SplitEnds(s: string)
    ensures EndsMatch(SplitOn(s, '/'), s) && (SplitOn(s, '/')[0] == "" ==> s == "" || s[0] == '/')
  {
    if s != [] { SplitEnds(s[1..]); }
  }

  lemma PlainSegmentEnds(seg: string)
    requires PlainSegment(seg)
    ensures seg[0] != '/' && seg[|seg| - 1] != '/' && !IsSpace(seg[0]) && !IsSpace(seg[|seg| - 1])
  {
    assert seg[0] in seg && seg[|seg| - 1] in seg;
  }

  lemma PlainEnds(segs: seq<string>, s: string)
    requires PlainSegments(segs) && EndsMatch(segs, s)
    ensures |s| > 0 && Trimmed(s) && s[0] != '/' && s[|s| - 1] != '/'
  {
    PlainSegmentEnds(segs[0]);
    PlainSegmentEnds(segs[|segs| - 1]);
  }

  lemma PlainPathEnds(s: string)
    requires PlainSegments(SplitOn(s, '/'))
    ensures |s| > 0 && Trimmed(s) && s[0] != '/' && s[|s| - 1] != '/' && TrimSpace(s) == s
  {
    SplitEnds(s);
    PlainEnds(SplitOn(s, '/'), s);
    TrimmedFixed(s);
  }

  /** The guard neither rejects nor changes a plain path. */
  lemma PlainPathKept(s: string)
    requires PlainPath(s)
    ensures Clean(s) == s && ValidateRelative(s) == Ok(s) && NormalizeChain(s) == Ok(SplitOn(s, '/')) && s != "."
  {
    PlainPathEnds(s);
    PlainClean(s);
    PlainNotDot(s);
  }

  lemma PlainClean(s: string)
    requires PlainPath(s) && s != "" && s[0] != '/'
    ensures Clean(s) == s
  {
    PlainSegmentsClean(SplitOn(s, '/'), false);
    JoinSplit(s, '/');
  }

  lemma PlainNotDot(s: string)
    requires PlainPath(s)
    ensures s != "."
  {
    SplitWord(".", '/');
    assert s == "." ==> PlainSegment(SplitOn(s, '/')[0]);
  }

  // ---------- One more segment ----------

  /** A plain directory with one more plain segment: taking it apart again gives both back. */
  lemma AppendSegment(dir: string, w: string)
    requires PlainPath(dir) && PlainSegment(w)
    ensures JoinPath(dir, w) == dir + "/" + w && Clean(dir + "/" + w) == dir + "/" + w
    ensures Dir(dir + "/" + w) == dir && Base(dir + "/" + w) == w
    ensures SplitOn(dir + "/" + w, '/') == SplitOn(dir, '/') + [w]
  {
    var p := dir + "/" + w;
    var segs := SplitOn(dir, '/');
    SplitLast(dir, w);
    PlainPathEnds(dir);
    assert PlainSegments(segs + [w]);
    PlainSegmentsClean(segs + [w], false);
    JoinSplit(p, '/');
    assert (segs + [w])[..|segs + [w]| - 1] == segs;
    DirOf(dir);
    assert CleanTail(segs + [w]) == segs + [w];
  }

  lemma DirOf(dir: string)
    requires PlainPath(dir)
    ensures Clean(Join(SplitOn(dir, '/') + [""], '/')) == dir
  {
    var segs := SplitOn(dir, '/');
    JoinTrailing(segs);
    JoinSplit(dir, '/');
    SplitLast(dir, "");
    PlainPathEnds(dir);
    PlainSegmentsClean(segs, false);
    assert (segs + [""])[..|segs|] == segs;
    assert dir + "/" + "" == dir + "/";
  }

  lemma {:induction false} JoinTrailing(segs: seq<string>)
    requires |segs| > 0
    ensures Join(segs + [""], '/') == Join(segs, '/') + "/"
  {
    if |segs| == 1 {
      assert (segs + [""])[1..] == [""];
    } else {
      JoinTrailing(segs[1..]);
      assert (segs + [""])[1..] == segs[1..] + [""];
    }
  }

  // ---------- Absolute roots ----------

  lemma {:induction false} JoinConcat(a: seq<string>, b: seq<string>)
    requires |a| > 0 && |b| > 0
    ensures Join(a + b, '/') == Join(a, '/') + "/" + Join(b, '/')
  {
    if |a| == 1 {
      assert (a + b)[1..] == b;
    } else {
      JoinConcat(a[1..], b);
      assert (a + b)[1..] == a[1..] + b;
    }
  }

  lemma {:induction false} CleanLeading(segs: seq<string>)
    requires PlainSegments(segs)
    ensures CleanSegments([""] + segs, true) == segs
    ensures CleanSegments([""] + [""] + segs, true) == segs
  {
    if segs == [] {
      assert [""][..0] == [] && ([""] + [""])[..1] == [""];
    } else {
      CleanLeading(segs[..|segs| - 1]);
      assert ([""] + segs)[..|segs|] == [""] + segs[..|segs| - 1];
      assert ([""] + [""] + segs)[..|segs| + 1] == [""] + [""] + segs[..|segs| - 1];
      assert PlainSegment(segs[|segs| - 1]);
      assert segs == segs[..|segs| - 1] + [segs[|segs| - 1]];
    }
  }

  /** An absolute path of plain segments is its own clean form. */
  lemma CleanAbsolute(segs: seq<string>)
    requires PlainSegments(segs) && segs != []
    ensures Clean("/" + Join(segs, '/')) == "/" + Join(segs, '/')
    ensures !HasSuffix("/" + Join(segs, '/'), "/")
  {
    var body := Join(segs, '/');
    forall p | p in segs ensures '/' !in p {
      var i :| 0 <= i < |segs| && segs[i] == p;
      assert PlainSegment(segs[i]);
    }
    SplitJoin(segs, '/');
    assert "/" + body == [] + ['/'] + body;
    SplitFirst([], body, '/');
    CleanLeading(segs);
    SplitEnds(body);
    PlainEnds(segs, body);
  }

  lemma CleanDoubleSlash(rel: string)
    requires PlainPath(rel)
    ensures Clean("//" + rel) == "/" + rel && Clean("/") == "/"
  {
    assert "//" + rel == [] + ['/'] + ([] + ['/'] + rel);
    SplitFirst([], [] + ['/'] + rel, '/');
    SplitFirst([], rel, '/');
    CleanLeading(SplitOn(rel, '/'));
    assert [""] + ([""] + SplitOn(rel, '/')) == [""] + [""] + SplitOn(rel, '/');
    JoinSplit(rel, '/');
    assert SplitOn("/", '/') == [""] + SplitOn("", '/') && SplitOn("", '/') == [""];
    CleanLeading([]);
    assert [""] + [""] + [] == SplitOn("/", '/');
  }

  lemma WithinProperRoot(root: seq<string>, rel: string)
    requires PlainSegments(root) && root != [] && PlainPath(rel)
    ensures var r := "/" + Join(root, '/'); WithinRoot(r, JoinPath(r, rel)) && JoinPath(r, rel) == r + "/" + rel
  {
    var r := "/" + Join(root, '/');
    PlainPathEnds(rel);
    CleanAbsolute(root);
    CleanBelow(root, rel);
    BelowIsWithin(r, rel);
  }

  lemma CleanBelow(root: seq<string>, rel: string)
    requires PlainSegments(root) && root != [] && PlainPath(rel)
    ensures var p := "/" + Join(root, '/') + "/" + rel; Clean(p) == p
  {
    var segs := SplitOn(rel, '/');
    JoinSplit(rel, '/');
    CleanAbsolute(root + segs);
    JoinedBelow(root, segs);
  }

  lemma JoinedBelow(root: seq<string>, segs: seq<string>)
    requires root != [] && segs != []
    ensures "/" + Join(root, '/') + "/" + Join(segs, '/') == "/" + Join(root + segs, '/')
  {
    JoinConcat(root, segs);
  }

  lemma BelowIsWithin(r: string, rel: string)
    requires r != "" && rel != "" && Clean(r) == r && !HasSuffix(r, "/") && Clean(r + "/" + rel) == r + "/" + rel
    ensures JoinPath(r, rel) == r + "/" + rel && WithinRoot(r, r + "/" + rel)
  {
    assert (r + "/" + rel)[..|r + "/"|] == r + "/";
  }

  lemma WithinSlash(rel: string)
    requires PlainPath(rel)
    ensures WithinRoot("/", JoinPath("/", rel)) && JoinPath("/", rel) == "/" + rel
  {
    PlainPathEnds(rel);
    JoinSplit(rel, '/');
    CleanDoubleSlash(rel);
    CleanAbsolute(SplitOn(rel, '/'));
    assert "/" + "/" + rel == "//" + rel;
  }

  /** Below an absolute, clean root, a plain relative path stays within the root. */
  lemma PlainWithinRoot(root: seq<string>, rel: string)
    requires PlainSegments(root) && PlainPath(rel)
    ensures var r := "/" + Join(root, '/');
      WithinRoot(r, JoinPath(r, rel)) && JoinPath(r, rel) == if root == [] then "/" + rel else r + "/" + rel
  {
    if root == [] { WithinSlash(rel); } else { WithinProperRoot(root, rel); }
  }

  /** Parts of a path, as cleaning leaves them. */
  predicate Parts(segs: seq<string>) {
    forall p :: p in segs ==> p != "" && '/' !in p
  }

  lemma {:induction false} CleanedParts(segs: seq<string>)
    requires forall p :: p in segs ==> '/' !in p
    ensures Parts(CleanSegments(segs, true))
  {
    if segs != [] { CleanedParts(segs[..|segs| - 1]); }
  }

  lemma LastPart(s: string)
    ensures HasSuffix(s, "/") ==> SplitOn(s, '/')[|SplitOn(s, '/')| - 1] == ""
  {
    if HasSuffix(s, "/") {
      SplitConcat(s[..|s| - 1], "", '/');
      assert s == s[..|s| - 1] + ['/'] + "";
    }
  }

  lemma SplitBelow(segs: seq<string>)
    requires Parts(segs) && segs != []
    ensures SplitOn("/" + Join(segs, '/'), '/') == [""] + segs && !HasSuffix("/" + Join(segs, '/'), "/")
  {
    var r := "/" + Join(segs, '/');
    SplitJoin(segs, '/');
    SplitFirst("", Join(segs, '/'), '/');
    assert r == "" + ['/'] + Join(segs, '/');
    LastPart(r);
  }

  lemma JoinBelow(segs: seq<string>, more: seq<string>)
    requires Parts(segs) && Parts(more) && segs != [] && more != []
    ensures Join(segs + more, '/') == Join(segs, '/') + "/" + Join(more, '/')
  {
    SplitJoin(segs, '/');
    SplitJoin(more, '/');
    SplitConcat(Join(segs, '/'), Join(more, '/'), '/');
    JoinSplit(Join(segs, '/') + ['/'] + Join(more, '/'), '/');
  }

  /** What begins with the path and a slash goes on with more parts. */
  lemma MoreBelow(segs: seq<string>, others: seq<string>, x: string)
    requires Parts(segs) && Parts(others) && segs != []
    requires "/" + Join(others, '/') == "/" + Join(segs, '/') + "/" + x
    ensures segs <= others
  {
    var r := "/" + Join(segs, '/');
    SplitBelow(segs);
    SplitConcat(r, x, '/');
    if others != [] {
      SplitBelow(others);
      SameTail("", others, segs + SplitOn(x, '/'));
    }
  }

  lemma SameTail(first: string, a: seq<string>, b: seq<string>)
    ensures [first] + a == [first] + b ==> a == b
  {
    assert ([first] + a)[1..] == a && ([first] + b)[1..] == b;
  }

  lemma Assoc(a: string, b: string, c: string, d: string)
    ensures a + (b + c + d) == a + b + c + d && a + b + c <= a + (b + c + d)
  {
  }

  lemma PrefixJoined(segs: seq<string>, others: seq<string>)
    requires Parts(others) && segs != [] && segs <= others && segs != others
    ensures HasPrefix("/" + Join(others, '/'), "/" + Join(segs, '/') + "/")
  {
    var more := others[|segs|..];
    assert segs + more == others;
    assert Parts(segs) by { forall p | p in segs ensures p in others {} }
    assert Parts(more) by { forall p | p in more ensures p in others {} }
    JoinBelow(segs, more);
    Assoc("/", Join(segs, '/'), "/", Join(more, '/'));
  }

  lemma PrefixBelow(segs: seq<string>, others: seq<string>)
    requires Parts(segs) && Parts(others) && segs != []
    ensures var r, c := "/" + Join(segs, '/'), "/" + Join(others, '/');
      r == c || HasPrefix(c, r + "/") <==> segs <= others
  {
    var r, c := "/" + Join(segs, '/'), "/" + Join(others, '/');
    if HasPrefix(c, r + "/") {
      assert c == r + "/" + c[|r| + 1..];
      MoreBelow(segs, others, c[|r| + 1..]);
    } else if r == c {
      SplitBelow(segs);
      if others != [] { SplitBelow(others); }
      SameTail("", segs, others);
    }
    if segs <= others && segs != others { PrefixJoined(segs, others); }
  }

  /** An absolute path is within another one exactly if, cleaned, it begins with all its segments. */
  lemma WithinExactly(root: string, candidate: string)
    requires HasPrefix(root, "/") && HasPrefix(candidate, "/")
    ensures WithinRoot(root, candidate) <==>
              CleanSegments(SplitOn(root, '/'), true) <= CleanSegments(SplitOn(candidate, '/'), true)
  {
    var segs, others := CleanSegments(SplitOn(root, '/'), true), CleanSegments(SplitOn(candidate, '/'), true);
    JoinSplit(root, '/');
    JoinSplit(candidate, '/');
    CleanedParts(SplitOn(root, '/'));
    CleanedParts(SplitOn(candidate, '/'));
    if segs == [] {
      assert Clean(root) == "/";
    } else {
      SplitBelow(segs);
      PrefixBelow(segs, others);
    }
  }

  // ---------- Cleaning any relative path ----------

  /** A pattern without a slash occurs in neither half, so it does not occur across the slash either. */
  lemma JoinedContains(a: string, b: string, sub: string)
    requires '/' !in sub && |sub| > 0 && !Contains(a, sub) && !Contains(b, sub)
    ensures !Contains(a + "/" + b, sub)
  {
    var p := a + "/" + b;
    forall i | 0 <= i <= |p| ensures !OccursAt(p, sub, i) {
      if i + |sub| <= |a| {
        assert p[i..i + |sub|] == a[i..i + |sub|] && !OccursAt(a, sub, i);
      } else if i > |a| {
        if i + |sub| <= |p| {
          assert p[i..i + |sub|] == b[i - |a| - 1..i - |a| - 1 + |sub|] && !OccursAt(b, sub, i - |a| - 1);
        }
      } else if i + |sub| <= |p| {
        assert p[i..i + |sub|][|a| - i] == '/';
      }
    }
  }

  /** Without the segments that cleaning drops, there being no "..". */
  function Kept(segs: seq<string>): seq<string> {
    if segs == [] then []
    else
      var last := segs[|segs| - 1];
      if last == "" || last == "." then Kept(segs[..|segs| - 1]) else Kept(segs[..|segs| - 1]) + [last]
  }

  lemma {:induction false} CleanKept(segs: seq<string>)
    requires ".." !in segs
    ensures CleanSegments(segs, false) == Kept(segs)
    ensures forall p :: p in Kept(segs) ==> p in segs && p != "" && p != "."
  {
    if segs != [] { CleanKept(segs[..|segs| - 1]); }
  }

  lemma {:induction false} AllKept(segs: seq<string>)
    requires "" !in segs && "." !in segs
    ensures Kept(segs) == segs
  {
    if segs != [] {
      assert segs == segs[..|segs| - 1] + [segs[|segs| - 1]];
      AllKept(segs[..|segs| - 1]);
    }
  }

  lemma {:induction false} KeptShorter(segs: seq<string>)
    ensures |Join(Kept(segs), '/')| <= |Join(segs, '/')|
  {
    if segs != [] {
      var init, last := segs[..|segs| - 1], segs[|segs| - 1];
      KeptShorter(init);
      assert segs == init + [last];
      if init != [] { JoinConcat(init, [last]); }
      if Kept(init) != [] { JoinConcat(Kept(init), [last]); } else { assert Kept(init) + [last] == [last]; }
    }
  }

  /** A relative path in clean form that the guard has let through. */
  predicate Normal(n: string) {
    && "" !in SplitOn(n, '/') && "." !in SplitOn(n, '/') && ".." !in SplitOn(n, '/')
    && !Contains(n, "\\") && !Contains(n, "..")
  }

  lemma PartContains(a: string, s: string, b: string, sub: string)
    requires Contains(s, sub)
    ensures Contains(a + s + b, sub)
  {
    var i :| 0 <= i <= |s| && OccursAt(s, sub, i);
    var t := a + s + b;
    assert t[|a| + i..|a| + i + |sub|] == s[i..i + |sub|];
    assert OccursAt(t, sub, |a| + i);
  }

  /** What does not occur in a path occurs in none of its segments. */
  lemma {:induction false} SegmentsLack(s: string, sub: string)
    requires !Contains(s, sub)
    ensures forall p :: p in SplitOn(s, '/') ==> !Contains(p, sub)
  {
    var parts := SplitOn(s, '/');
    JoinSplit(s, '/');
    forall i | 0 <= i < |parts| ensures !Contains(parts[i], sub) {
      var a, b := Around(parts, i);
      assert s == a + parts[i] + b;
      if Contains(parts[i], sub) { PartContains(a, parts[i], b, sub); }
    }
  }

  /** What stands before and after one of the parts. */
  lemma {:induction false} Around(parts: seq<string>, i: nat) returns (a: string, b: string)
    requires i < |parts|
    ensures Join(parts, '/') == a + parts[i] + b
  {
    a := if i == 0 then "" else Join(parts[..i], '/') + "/";
    b := if i == |parts| - 1 then "" else "/" + Join(parts[i + 1..], '/');
    assert parts == parts[..i] + parts[i..] && parts[i..] == [parts[i]] + parts[i + 1..];
    if i > 0 { JoinConcat(parts[..i], parts[i..]); } else { assert parts[..0] == [] && parts[0..] == parts; }
    if i < |parts| - 1 { JoinConcat([parts[i]], parts[i + 1..]); } else { assert parts[i..] == [parts[i]]; }
  }

  lemma {:induction false} JoinLacks(parts: seq<string>, sub: string)
    requires '/' !in sub && |sub| > 0 && forall p :: p in parts ==> !Contains(p, sub)
    ensures !Contains(Join(parts, '/'), sub)
  {
    if |parts| > 1 {
      JoinLacks(parts[1..], sub);
      JoinedContains(parts[0], Join(parts[1..], '/'), sub);
    } else if parts == [] {
      assert forall i :: !OccursAt("", sub, i);
    }
  }

  lemma NoDotDotSegment(s: string)
    requires !Contains(s, "..")
    ensures ".." !in SplitOn(s, '/')
  {
    SegmentsLack(s, "..");
    assert OccursAt("..", "..", 0) && Contains("..", "..");
  }

  /** Cleaning a relative path gives a normal one that is no longer, or a dot. */
  lemma CleanIsNormal(s: string)
    requires s != "" && s[0] != '/' && !Contains(s, "\\") && !Contains(s, "..")
    ensures Clean(s) == "." || (Normal(Clean(s)) && Clean(s) != "" && |Clean(s)| <= |s|)
  {
    var segs := SplitOn(s, '/');
    var kept := Kept(segs);
    NoDotDotSegment(s);
    CleanKept(segs);
    KeptShorter(segs);
    JoinSplit(s, '/');
    if kept != [] {
      SplitJoin(kept, '/');
      SegmentsLack(s, "\\");
      SegmentsLack(s, "..");
      JoinLacks(kept, "\\");
      JoinLacks(kept, "..");
    }
  }

  lemma NormalStarts(n: string)
    requires Normal(n)
    ensures n != "" && n[0] != '/' && n != "."
  {
    SplitEnds(n);
    SplitWord(".", '/');
    assert SplitOn("", '/') == [""];
  }

  lemma NormalClean(n: string)
    requires Normal(n)
    ensures Clean(n) == n
  {
    NormalStarts(n);
    CleanKept(SplitOn(n, '/'));
    AllKept(SplitOn(n, '/'));
    JoinSplit(n, '/');
  }

  /** A file name appended to a normal directory, or standing alone. */
  lemma JoinNormal(n: string, w: string)
    requires (n == "" || Normal(n)) && '/' !in w && w != "" && w != "." && w != ".."
    ensures JoinPath(n, w) == if n == "" then w else n + "/" + w
  {
    SplitWord(w, '/');
    CleanKept([w]);
    AllKept([w]);
    if n != "" {
      NormalStarts(n);
      SplitLast(n, w);
      CleanKept(SplitOn(n, '/') + [w]);
      AllKept(SplitOn(n, '/') + [w]);
      JoinSplit(n + "/" + w, '/');
    }
  }
}
