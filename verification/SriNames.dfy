/** Which package and version a CDN url names, and what a candidate's rename does to it. */
module SriNames {
  import opened Text
  import opened SriScan
  import opened SriEvaluate
  import opened SriFix

  // ---------- Urls that name a package ----------

  /** Not empty, and without the characters that separate the parts of a package url. */
  predicate Word(w: string) {
    w != "" && '@' !in w && '/' !in w
  }

  /** A package name: a word, or a scope and a word. */
  function PkgName(scope: string, name: string): string {
    if scope == "" then name else "@" + scope + "/" + name
  }

  predicate NamedBy(pkg: string, scope: string, name: string) {
    (scope == "" || Word(scope)) && Word(name) && pkg == PkgName(scope, name)
  }

  /** The parts of a url around the one package and version it names. */
  datatype Place = Place(before: string, scope: string, name: string, version: string, after: string)

  function PkgOf(p: Place): string {
    PkgName(p.scope, p.name)
  }

  /** What stands before the slash of the package's last segment. */
  function Front(p: Place): string {
    if p.scope == "" then p.before else p.before + "/" + ("@" + p.scope)
  }

  function Pinned(p: Place): string {
    p.name + "@" + p.version
  }

  function UrlText(p: Place): string {
    Front(p) + "/" + Pinned(p) + "/" + p.after
  }

  /** In the directories of the path, and before the package, there is no other `@`. */
  predicate PlaceOk(p: Place) {
    && '@' !in p.before && (p.scope == "" || Word(p.scope)) && Word(p.name) && Word(p.version)
    && var parts := SplitOn(p.after, '/'); forall i :: 0 <= i < |parts| - 1 ==> '@' !in parts[i]
  }

  predicate Names(url: string, p: Place) {
    PlaceOk(p) && url == UrlText(p)
  }

  /** A url that names no package: no directory in it has an `@`. */
  predicate Bare(url: string) {
    var parts := SplitOn(url, '/'); forall i :: 0 <= i < |parts| - 1 ==> '@' !in parts[i]
  }

  /** The urls the scan makes of its references are of this kind. */
  lemma ScanUrlNamed(r: Ref, scope: string, name: string)
    requires '@' !in r.host && NamedBy(r.pkg, scope, name) && Word(r.version)
    requires var parts := SplitOn(r.path, '/'); forall i :: 0 <= i < |parts| - 1 ==> '@' !in parts[i]
    ensures Names(UrlOf(r), Place("https://" + Lower(r.host) + "/npm", scope, name, r.version, r.path))
  {
    var p := Place("https://" + Lower(r.host) + "/npm", scope, name, r.version, r.path);
    forall k | 0 <= k < |r.host| ensures Lower(r.host)[k] != '@' {}
    NpmText("https://" + Lower(r.host), r.pkg, r.version, r.path);
    PlaceText(p.before, scope, name, r.pkg, r.version, r.path);
  }

  lemma PlaceText(before: string, scope: string, name: string, pkg: string, version: string, path: string)
    requires NamedBy(pkg, scope, name)
    ensures before + "/" + (pkg + "@" + version) + "/" + path == UrlText(Place(before, scope, name, version, path))
  {
    if scope != "" { ScopeText(before, scope, name, version, path); }
  }

  lemma NpmText(base: string, pkg: string, version: string, path: string)
    ensures base + "/npm/" + pkg + "@" + version + "/" + path ==
              (base + "/npm") + "/" + (pkg + "@" + version) + "/" + path
  {
    assert "/npm/" == "/npm" + "/";
    assert base + "/npm/" == (base + "/npm") + "/";
    assert base + "/npm/" + pkg + "@" + version == (base + "/npm") + "/" + (pkg + "@" + version);
  }

  lemma ScopeText(before: string, scope: string, name: string, version: string, path: string)
    ensures before + "/" + ("@" + scope + "/" + name + "@" + version) + "/" + path
            == (before + "/" + ("@" + scope)) + "/" + (name + "@" + version) + "/" + path
  {
    assert before + "/" + ("@" + scope + "/" + name + "@" + version)
        == (before + "/" + ("@" + scope)) + "/" + (name + "@" + version);
  }

  // ---------- The segments of a url ----------

  lemma FrontParts(p: Place)
    requires PlaceOk(p)
    ensures SplitOn(Front(p), '/') == SplitOn(p.before, '/') + if p.scope == "" then [] else ["@" + p.scope]
    ensures forall s :: s in SplitOn(p.before, '/') ==> '@' !in s
  {
    NoAtInParts(p.before);
    if p.scope != "" {
      SplitConcat(p.before, "@" + p.scope, '/');
      SplitWord("@" + p.scope, '/');
    }
  }

  lemma {:induction false} NoAtInParts(s: string)
    requires '@' !in s
    ensures forall p :: p in SplitOn(s, '/') ==> '@' !in p
  {
    if s != [] {
      NoAtInParts(s[1..]);
      assert s == [s[0]] + s[1..];
    }
  }

  lemma UrlParts(p: Place)
    requires PlaceOk(p)
    ensures SplitOn(UrlText(p), '/') == SplitOn(Front(p), '/') + [Pinned(p)] + SplitOn(p.after, '/')
  {
    SplitConcat(Front(p) + "/" + Pinned(p), p.after, '/');
    SplitConcat(Front(p), Pinned(p), '/');
    assert '/' !in Pinned(p);
    SplitWord(Pinned(p), '/');
  }

  /** Apart from the file name, only the package's own segment and its scope have an `@`. */
  lemma AtParts(p: Place)
    requires PlaceOk(p)
    ensures var segs, n := SplitOn(UrlText(p), '/'), |SplitOn(Front(p), '/')|;
      && n < |segs| - 1 && segs[n] == Pinned(p) && (p.scope != "" ==> n > 0 && segs[n - 1] == "@" + p.scope)
      && forall j :: 0 <= j < |segs| - 1 && '@' in segs[j] ==> j == n || (j == n - 1 && p.scope != "")
  {
    UrlParts(p);
    FrontParts(p);
    var segs, front, before := SplitOn(UrlText(p), '/'), SplitOn(Front(p), '/'), SplitOn(p.before, '/');
    forall j | 0 <= j < |segs| - 1 ensures '@' in segs[j] ==> j == |front| || (j == |front| - 1 && p.scope != "") {
      if j < |before| {
        assert segs[j] == before[j] && before[j] in before;
      } else if j > |front| {
        assert segs[j] == SplitOn(p.after, '/')[j - |front| - 1];
      }
    }
  }

  /** Only the package's own segment has an `@` that is not its first letter. */
  lemma PackagePart(p: Place, j: nat)
    requires PlaceOk(p) && j < |SplitOn(UrlText(p), '/')| - 1
    requires var s := SplitOn(UrlText(p), '/')[j]; '@' in s && s[0] != '@'
    ensures j == |SplitOn(Front(p), '/')| && SplitOn(UrlText(p), '/')[j] == Pinned(p)
  {
    AtParts(p);
  }

  /** A word pinned to a version is split at its one `@`. */
  lemma PinnedApart(n: string, v: string, m: string, w: string)
    requires '@' !in n && '@' !in v && '@' !in m && '@' !in w && n + "@" + v == m + "@" + w
    ensures n == m && v == w
  {
    var s, t := n + "@" + v, m + "@" + w;
    assert s[|n|] == '@' && t[|m|] == '@';
    assert forall k :: 0 <= k < |n| ==> s[k] == n[k] != '@';
    assert forall k :: 0 <= k < |m| ==> t[k] == m[k] != '@';
    assert |n| == |m|;
    assert n == s[..|n|] && v == s[|n| + 1..];
    assert m == t[..|m|] && w == t[|m| + 1..];
  }

  // ---------- When a candidate matches ----------

  /** Name and versions are made of words, and the old version is not spelled like the package's scope. */
  ghost predicate ProperNames(c: Candidate) {
    (exists scope, name :: NamedBy(c.pkg, scope, name) && scope != c.was) && Word(c.was) && Word(c.next)
  }

  ghost predicate CandidateOk(c: Candidate) {
    ProperNames(c) && c.was != c.next
  }

  /** The segments of a candidate's tag. */
  function TagParts(scope: string, name: string, version: string): seq<string> {
    (if scope == "" then [] else ["@" + scope]) + [name + "@" + version]
  }

  lemma TagSplit(c: Candidate, scope: string, name: string)
    requires NamedBy(c.pkg, scope, name) && Word(c.was)
    ensures SplitOn(c.pkg + "@" + c.was, '/') == TagParts(scope, name, c.was)
  {
    var last := name + "@" + c.was;
    assert '/' !in last;
    SplitWord(last, '/');
    if scope != "" {
      assert c.pkg + "@" + c.was == "@" + scope + "/" + last;
      SplitConcat("@" + scope, last, '/');
      SplitWord("@" + scope, '/');
    }
  }

  lemma SplitThree(a: string, w: string, b: string)
    ensures SplitOn(a + "/" + w + "/" + b, '/') == SplitOn(a, '/') + SplitOn(w, '/') + SplitOn(b, '/')
  {
    SplitConcat(a + "/" + w, b, '/');
    SplitConcat(a, w, '/');
  }

  lemma OccursAround(s: string, sub: string, i: int)
    requires OccursAt(s, sub, i)
    ensures s == s[..i] + sub + s[i + |sub|..]
  {
    assert s == s[..i] + s[i..i + |sub|] + s[i + |sub|..];
  }

  /** Where a tag occurs, the url's segments are those before it, its own, and those after it. */
  lemma TagInParts(url: string, w: string, i: nat)
    requires OccursAt(url, "/" + w + "/", i)
    ensures SplitOn(url, '/') == SplitOn(url[..i], '/') + SplitOn(w, '/') + SplitOn(url[i + |w| + 2..], '/')
  {
    OccursAround(url, "/" + w + "/", i);
    TagText(url[..i], w, url[i + |w| + 2..]);
    SplitThree(url[..i], w, url[i + |w| + 2..]);
  }

  lemma TagText(a: string, w: string, b: string)
    ensures a + ("/" + w + "/") + b == a + "/" + w + "/" + b
  {
  }

  /** What a match says of the url: the version, the package's last segment, and its scope if the candidate has one. */
  predicate Meets(p: Place, scope: string, name: string, version: string) {
    p.version == version && p.name == name && (scope == "" || p.scope == scope)
  }

  lemma MatchMeets(p: Place, c: Candidate, scope: string, name: string)
    requires PlaceOk(p) && NamedBy(c.pkg, scope, name) && Word(c.was) && Matches(UrlText(p), c)
    ensures Meets(p, scope, name, c.was)
  {
    var url, w := UrlText(p), c.pkg + "@" + c.was;
    assert Tag(c) == "/" + w + "/";
    var i :| 0 <= i <= |url| && OccursAt(url, Tag(c), i);
    TagInParts(url, w, i);
    TagSplit(c, scope, name);
    var front, last := SplitOn(url[..i], '/'), name + "@" + c.was;
    var j := |front| + |TagParts(scope, name, c.was)| - 1;
    assert SplitOn(url, '/')[j] == last && last[|name|] == '@' && last[0] == name[0];
    PackagePart(p, j);
    PinnedApart(p.name, p.version, name, c.was);
    if scope != "" { ScopeBefore(p, scope, j); }
  }

  /** The segment before the package's own, if it starts with an `@`, is the scope. */
  lemma ScopeBefore(p: Place, scope: string, j: nat)
    requires PlaceOk(p) && 0 < j == |SplitOn(Front(p), '/')| < |SplitOn(UrlText(p), '/')|
    requires SplitOn(UrlText(p), '/')[j - 1] == "@" + scope
    ensures p.scope == scope
  {
    AtParts(p);
    var s := "@" + scope;
    assert s[0] == '@' && '@' in s;
    assert ("@" + p.scope)[1..] == p.scope && s[1..] == scope;
  }

  lemma MeetsMatch(p: Place, c: Candidate, scope: string, name: string)
    requires PlaceOk(p) && NamedBy(c.pkg, scope, name) && Meets(p, scope, name, c.was)
    ensures Matches(UrlText(p), c)
  {
    var url, tag := UrlText(p), Tag(c);
    var a := if scope == "" then Front(p) else p.before;
    assert url == a + tag + p.after;
    assert url[|a|..|a| + |tag|] == tag;
    assert OccursAt(url, tag, |a|);
  }

  /**
   * A candidate matches a url exactly if the url names the candidate's old version, of its own package or of a
   * scoped package whose last segment is the candidate's name.
   */
  lemma MatchesExactly(p: Place, c: Candidate)
    requires PlaceOk(p) && CandidateOk(c)
    ensures Matches(UrlText(p), c) <==> p.version == c.was && (PkgOf(p) == c.pkg || IsTail(c, p))
  {
    var scope, name :| NamedBy(c.pkg, scope, name) && scope != c.was;
    if Matches(UrlText(p), c) { MatchMeets(p, c, scope, name); }
    if Meets(p, scope, name, c.was) { MeetsMatch(p, c, scope, name); }
    SameName(p, scope, name);
    assert scope != "" ==> c.pkg[0] == '@';
    assert p.name[0] in p.name;
  }

  /** The candidate's package is the last segment of the scoped package the url names. */
  predicate IsTail(c: Candidate, p: Place) {
    p.scope != "" && p.name == c.pkg
  }

  lemma SameName(p: Place, scope: string, name: string)
    requires PlaceOk(p) && (scope == "" || Word(scope)) && Word(name)
    ensures PkgOf(p) == PkgName(scope, name) <==> p.scope == scope && p.name == name
  {
    PkgParts(p.scope, p.name);
    PkgParts(scope, name);
    assert ("@" + p.scope)[1..] == p.scope && ("@" + scope)[1..] == scope;
  }

  lemma PkgParts(scope: string, name: string)
    requires (scope == "" || Word(scope)) && Word(name)
    ensures SplitOn(PkgName(scope, name), '/') == if scope == "" then [name] else ["@" + scope, name]
  {
    SplitWord(name, '/');
    if scope != "" {
      SplitConcat("@" + scope, name, '/');
      SplitWord("@" + scope, '/');
    }
  }

  /** What a candidate matches has an `@` in a directory. */
  lemma MatchedHasAt(url: string, c: Candidate)
    requires Matches(url, c) && CandidateOk(c)
    ensures !Bare(url)
  {
    var scope, name :| NamedBy(c.pkg, scope, name) && scope != c.was;
    var w, last := c.pkg + "@" + c.was, name + "@" + c.was;
    assert Tag(c) == "/" + w + "/";
    var i :| 0 <= i <= |url| && OccursAt(url, Tag(c), i);
    TagInParts(url, w, i);
    TagSplit(c, scope, name);
    var j := |SplitOn(url[..i], '/')| + |TagParts(scope, name, c.was)| - 1;
    assert SplitOn(url, '/')[j] == last && last[|name|] == '@';
  }

  /** A url that names no package is matched by no candidate. */
  lemma BareUnmatched(url: string, c: Candidate)
    requires Bare(url) && CandidateOk(c)
    ensures !Matches(url, c)
  {
    if Matches(url, c) { MatchedHasAt(url, c); }
  }

  // ---------- What a rename does ----------

  /** Where the version is, written as a stretch from the `@` to the slash. */
  lemma VersionOccurs(p: Place)
    ensures var at := |Front(p)| + 1 + |p.name|;
      && UrlText(p)[..at] == Front(p) + "/" + p.name && OccursAt(UrlText(p), "@" + p.version + "/", at)
      && UrlText(p)[at + |p.version| + 2..] == p.after
  {
    var head, find := Front(p) + "/" + p.name, "@" + p.version + "/";
    assert UrlText(p) == head + find + p.after;
  }

  /** It is nowhere else, the version not being spelled like the scope. */
  lemma VersionOnce(p: Place, j: nat)
    requires PlaceOk(p) && p.scope != p.version && OccursAt(UrlText(p), "@" + p.version + "/", j)
    ensures j == |Front(p)| + 1 + |p.name|
  {
    var url, w := UrlText(p), "@" + p.version;
    var a, b := url[..j], url[j + |w| + 1..];
    assert url == a + url[j..j + |w| + 1] + b;
    assert url == (a + w) + "/" + b;
    SplitConcat(a + w, b, '/');
    SplitAppend(a, w, '/');
    var parts, segs := SplitOn(a, '/'), SplitOn(url, '/');
    var k := |parts| - 1;
    var stem := parts[k];
    assert segs[k] == stem + w && segs[k][|stem|] == '@';
    UrlParts(p);
    FrontParts(p);
    NotScope(p, stem, k);
    PackagePart(p, k);
    JoinSplit(a + w, '/');
    JoinSplit(Front(p) + "/" + Pinned(p), '/');
    SplitConcat(Front(p), Pinned(p), '/');
    SplitWord(Pinned(p), '/');
    assert SplitOn(a + w, '/') == segs[..k + 1];
    assert SplitOn(Front(p) + "/" + Pinned(p), '/') == segs[..k + 1];
    assert a + w == Front(p) + "/" + Pinned(p);
  }

  /** The segment that ends in the version is not the scope's, so its first letter is not the `@`. */
  lemma NotScope(p: Place, stem: string, k: nat)
    requires PlaceOk(p) && p.scope != p.version && k < |SplitOn(UrlText(p), '/')| - 1
    requires SplitOn(UrlText(p), '/')[k] == stem + ("@" + p.version)
    ensures SplitOn(UrlText(p), '/')[k][0] != '@'
  {
    AtParts(p);
    var x := stem + ("@" + p.version);
    assert x[|stem|] == '@' && Pinned(p)[0] in p.name;
    OnlyAtFirst(p.scope, stem, p.version);
  }

  lemma OnlyAtFirst(scope: string, stem: string, version: string)
    requires '@' !in scope
    ensures "@" + scope == stem + ("@" + version) ==> scope == version
  {
    var x, y := "@" + scope, stem + ("@" + version);
    assert y[|stem|] == '@' && forall k :: 0 < k < |x| ==> x[k] == scope[k - 1];
    assert x[1..] == scope && (stem == [] ==> y[1..] == version);
  }

  lemma VersionOnlyThere(p: Place)
    requires PlaceOk(p) && p.scope != p.version
    ensures var url, find, at := UrlText(p), "@" + p.version + "/", |Front(p)| + 1 + |p.name|;
      && OccursAt(url, find, at) && (forall j :: 0 <= j <= |url| && OccursAt(url, find, j) ==> j == at)
      && !Contains(url[at + |find|..], find)
  {
    var url, find, at := UrlText(p), "@" + p.version + "/", |Front(p)| + 1 + |p.name|;
    VersionOccurs(p);
    forall j | 0 <= j <= |url| && OccursAt(url, find, j) ensures j == at { VersionOnce(p, j); }
    var rest := url[at + |find|..];
    forall j | 0 <= j <= |rest| ensures !OccursAt(rest, find, j) {
      if OccursAt(rest, find, j) { LaterOccurs(url, find, at + |find|, j); }
    }
  }

  lemma LaterOccurs(s: string, sub: string, i: nat, j: nat)
    requires i <= |s| && OccursAt(s[i..], sub, j)
    ensures OccursAt(s, sub, i + j)
  {
    assert s[i + j..i + j + |sub|] == s[i..][j..j + |sub|];
  }

  /** The rename of a matching url changes its version, and nothing else. */
  lemma RenamedText(p: Place, c: Candidate)
    requires PlaceOk(p) && p.version == c.was && p.scope != c.was
    ensures NewUrl(UrlText(p), c) == UrlText(p.(version := c.next))
  {
    VersionOccurs(p);
    VersionOnlyThere(p);
    ReplacedThere(UrlText(p), "@" + c.was + "/", "@" + c.next + "/", Front(p) + "/" + p.name, p.after);
    Reassembled(Front(p), p.name, c.next, p.after);
  }

  lemma ReplacedThere(url: string, find: string, with: string, head: string, after: string)
    requires |find| > 0 && OccursAt(url, find, |head|) && url[..|head|] == head && url[|head| + |find|..] == after
    requires forall j :: 0 <= j <= |url| && OccursAt(url, find, j) ==> j == |head|
    requires !Contains(after, find)
    ensures ReplaceAll(url, find, with) == head + with + after
  {
    ReplaceOnce(url, find, with, |head|);
  }

  lemma Reassembled(front: string, name: string, version: string, after: string)
    ensures front + "/" + (name + "@" + version) + "/" + after == (front + "/" + name) + ("@" + version + "/") + after
  {
  }
}
