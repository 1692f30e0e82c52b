/** What a scan retains and what it notes, told from the roots, the files and the references alone. */
module SriNotes {
  import opened Wrappers
  import opened Text
  import opened SriScan

  // ---------- Hosts ----------

  /** The same character, or the same letter in the other case. */
  predicate SameLetter(c: char, d: char) {
    || c == d
    || ('A' <= c <= 'Z' && d as int == c as int + 32)
    || ('A' <= d <= 'Z' && c as int == d as int + 32)
  }

  predicate EqualFold(a: string, b: string) {
    |a| == |b| && forall i :: 0 <= i < |a| ==> SameLetter(a[i], b[i])
  }

  /** A configured host, but for case and white space at its edges. */
  predicate HostFine(cfg: Config, host: string) {
    exists j :: 0 <= j < |cfg.hosts| && EqualFold(TrimSpace(host), TrimSpace(cfg.hosts[j]))
  }

  lemma LowerFolds(a: string, b: string)
    ensures Lower(a) == Lower(b) <==> EqualFold(a, b)
  {
    forall i | 0 <= i < |a| && |a| == |b| ensures Lower(a)[i] == Lower(b)[i] <==> SameLetter(a[i], b[i]) {}
    if EqualFold(a, b) { assert Lower(a) == Lower(b); }
  }

  lemma SpaceLowered(c: char)
    ensures IsSpace(LowerChar(c)) <==> IsSpace(c)
  {
  }

  lemma {:induction false} LeftLowered(s: string)
    ensures TrimLeft(Lower(s)) == Lower(TrimLeft(s))
  {
    if s != "" {
      SpaceLowered(s[0]);
      LeftLowered(s[1..]);
      assert Lower(s)[1..] == Lower(s[1..]);
    }
  }

  lemma {:induction false} RightLowered(s: string)
    ensures TrimRight(Lower(s)) == Lower(TrimRight(s))
  {
    if s != "" {
      SpaceLowered(s[|s| - 1]);
      RightLowered(s[..|s| - 1]);
      assert Lower(s)[..|s| - 1] == Lower(s[..|s| - 1]);
    }
  }

  /** The scan lowers a host before it is compared, which makes no difference. */
  lemma HostMeaning(cfg: Config, host: string)
    ensures HostAllowed(Lower(host), cfg.hosts) <==> HostFine(cfg, host)
    ensures HostAllowed(host, cfg.hosts) <==> HostFine(cfg, host)
  {
    LeftLowered(host);
    RightLowered(TrimLeft(host));
    assert Lower(Lower(TrimSpace(host))) == Lower(TrimSpace(host));
    forall j | 0 <= j < |cfg.hosts|
      ensures Lower(TrimSpace(host)) == Lower(TrimSpace(cfg.hosts[j])) <==>
                EqualFold(TrimSpace(host), TrimSpace(cfg.hosts[j]))
    {
      LowerFolds(TrimSpace(host), TrimSpace(cfg.hosts[j]));
    }
  }

  // ---------- References in the order they are read ----------

  /** A reference and the file it was read from. */
  datatype Sighting = Sighting(rel: string, ref: Ref)

  predicate About(cfg: Config, g: Sighting, pkg: string) {
    g.ref.pkg == pkg && HostFine(cfg, g.ref.host)
  }

  /** The first reference to the package on a configured host. */
  predicate IsFirst(cfg: Config, read: seq<Sighting>, m: nat, pkg: string) {
    m < |read| && About(cfg, read[m], pkg) && forall j :: 0 <= j < m ==> !About(cfg, read[j], pkg)
  }

  /** The first one decides the version of the package. */
  predicate AtVersion(cfg: Config, read: seq<Sighting>, m: nat, pkg: string) {
    m < |read| && About(cfg, read[m], pkg) && Decides(cfg, read, pkg, read[m].ref.version)
  }

  predicate Decides(cfg: Config, read: seq<Sighting>, pkg: string, version: string) {
    exists f :: 0 <= f < |read| && IsFirst(cfg, read, f, pkg) && read[f].ref.version == version
  }

  /** The last reference to the package at that version. */
  predicate IsKept(cfg: Config, read: seq<Sighting>, m: nat, pkg: string) {
    AtVersion(cfg, read, m, pkg) && forall j :: m < j < |read| ==> !AtVersion(cfg, read, j, pkg)
  }

  /** Which notes the references give rise to. */
  predicate RefNoted(cfg: Config, read: seq<Sighting>, x: Warning) {
    match x
    case HostBlocked(host) => exists m :: 0 <= m < |read| && IsBlocked(cfg, read[m], host)
    case Conflict(pkg, kept, seen) =>
      kept != seen && Decides(cfg, read, pkg, kept)
      && exists m :: 0 <= m < |read| && About(cfg, read[m], pkg) && read[m].ref.version == seen
    case _ => false
  }

  predicate IsBlocked(cfg: Config, g: Sighting, host: string) {
    !HostFine(cfg, g.ref.host) && host == Lower(g.ref.host)
  }

  predicate OfRefs(x: Warning) {
    x.HostBlocked? || x.Conflict?
  }

  function ActiveOf(g: Sighting): ActiveRef {
    ActiveRef(UrlOf(g.ref), g.ref.pkg, g.ref.version, Lower(g.ref.host), g.rel)
  }

  /** What the map has for a package. */
  ghost predicate Keeps(cfg: Config, refs: map<string, ActiveRef>, read: seq<Sighting>, pkg: string) {
    if pkg in refs then
      && Decides(cfg, read, pkg, refs[pkg].version)
      && exists m: nat :: IsKept(cfg, read, m, pkg) && refs[pkg] == ActiveOf(read[m])
    else forall m :: 0 <= m < |read| ==> !About(cfg, read[m], pkg)
  }

  ghost predicate Tells(cfg: Config, s: Scan, read: seq<Sighting>) {
    && (forall pkg :: Keeps(cfg, s.refs, read, pkg))
    && (forall x :: OfRefs(x) ==> (x in s.warnings <==> RefNoted(cfg, read, x)))
  }

  // ---------- One more reference ----------

  lemma StillFirst(cfg: Config, read: seq<Sighting>, g: Sighting, m: nat, pkg: string)
    ensures m < |read| ==> (IsFirst(cfg, read + [g], m, pkg) <==> IsFirst(cfg, read, m, pkg))
    ensures m == |read| ==>
              (IsFirst(cfg, read + [g], m, pkg) <==>
                About(cfg, g, pkg) && forall j :: 0 <= j < |read| ==> !About(cfg, read[j], pkg))
  {
    assert forall j :: 0 <= j < |read| ==> (read + [g])[j] == read[j];
  }

  /** The version is decided once for all. */
  lemma StillDecides(cfg: Config, read: seq<Sighting>, g: Sighting, pkg: string, version: string)
    ensures Decides(cfg, read + [g], pkg, version) <==>
              || Decides(cfg, read, pkg, version)
              || (&& About(cfg, g, pkg) && g.ref.version == version
                  && forall j :: 0 <= j < |read| ==> !About(cfg, read[j], pkg))
  {
    forall m: nat | m <= |read| { StillFirst(cfg, read, g, m, pkg); }
    if Decides(cfg, read, pkg, version) {
      var f :| 0 <= f < |read| && IsFirst(cfg, read, f, pkg) && read[f].ref.version == version;
      assert IsFirst(cfg, read + [g], f, pkg);
    }
    assert (read + [g])[|read|] == g;
  }

  lemma DecidedOnce(cfg: Config, read: seq<Sighting>, pkg: string, v: string, u: string)
    requires Decides(cfg, read, pkg, v) && Decides(cfg, read, pkg, u)
    ensures v == u
  {
  }

  /** Whether an earlier reference is at the version stays as it was, unless none was. */
  lemma StillAtVersion(cfg: Config, read: seq<Sighting>, g: Sighting, m: nat, pkg: string)
    requires m < |read|
    ensures AtVersion(cfg, read + [g], m, pkg) <==> AtVersion(cfg, read, m, pkg)
  {
    StillDecides(cfg, read, g, pkg, read[m].ref.version);
    assert (read + [g])[m] == read[m];
  }

  lemma StillKept(cfg: Config, read: seq<Sighting>, g: Sighting, m: nat, pkg: string)
    requires IsKept(cfg, read, m, pkg) && !AtVersion(cfg, read + [g], |read|, pkg)
    ensures IsKept(cfg, read + [g], m, pkg)
  {
    forall j: nat | j < |read| ensures AtVersion(cfg, read + [g], j, pkg) <==> AtVersion(cfg, read, j, pkg) {
      StillAtVersion(cfg, read, g, j, pkg);
    }
  }

  /** The version of a package that is in the map is decided, and the first that comes decides. */
  lemma NextAtVersion(cfg: Config, refs: map<string, ActiveRef>, read: seq<Sighting>, g: Sighting, pkg: string)
    requires Keeps(cfg, refs, read, pkg)
    ensures AtVersion(cfg, read + [g], |read|, pkg) <==>
              About(cfg, g, pkg) && (pkg in refs ==> refs[pkg].version == g.ref.version)
  {
    StillDecides(cfg, read, g, pkg, g.ref.version);
    assert (read + [g])[|read|] == g;
    if pkg in refs {
      if Decides(cfg, read, pkg, g.ref.version) { DecidedOnce(cfg, read, pkg, g.ref.version, refs[pkg].version); }
    }
  }

  function NextRefs(cfg: Config, refs: map<string, ActiveRef>, g: Sighting): map<string, ActiveRef> {
    if HostFine(cfg, g.ref.host) && (g.ref.pkg in refs ==> refs[g.ref.pkg].version == g.ref.version)
    then refs[g.ref.pkg := ActiveOf(g)] else refs
  }

  lemma KeepsNext(cfg: Config, refs: map<string, ActiveRef>, read: seq<Sighting>, g: Sighting, pkg: string)
    requires Keeps(cfg, refs, read, pkg)
    ensures Keeps(cfg, NextRefs(cfg, refs, g), read + [g], pkg)
  {
    var refs' := NextRefs(cfg, refs, g);
    NextAtVersion(cfg, refs, read, g, pkg);
    assert (read + [g])[|read|] == g;
    if AtVersion(cfg, read + [g], |read|, pkg) {
      assert IsKept(cfg, read + [g], |read|, pkg) && refs'[pkg] == ActiveOf(g);
    } else if pkg in refs {
      var m: nat :| IsKept(cfg, read, m, pkg) && refs[pkg] == ActiveOf(read[m]);
      StillKept(cfg, read, g, m, pkg);
      StillDecides(cfg, read, g, pkg, refs[pkg].version);
      assert refs'[pkg] == refs[pkg] && (read + [g])[m] == read[m];
    } else {
      assert forall m :: 0 <= m < |read| ==> (read + [g])[m] == read[m];
    }
  }

  lemma BlockedNext(cfg: Config, read: seq<Sighting>, g: Sighting, host: string)
    ensures RefNoted(cfg, read + [g], HostBlocked(host)) <==>
              RefNoted(cfg, read, HostBlocked(host)) || IsBlocked(cfg, g, host)
  {
    assert (read + [g])[|read|] == g && forall m :: 0 <= m < |read| ==> (read + [g])[m] == read[m];
  }

  lemma ConflictNext(cfg: Config, refs: map<string, ActiveRef>, read: seq<Sighting>, g: Sighting, pkg: string,
      kept: string, seen: string)
    requires Keeps(cfg, refs, read, pkg)
    ensures RefNoted(cfg, read + [g], Conflict(pkg, kept, seen)) <==>
              || RefNoted(cfg, read, Conflict(pkg, kept, seen))
              || (About(cfg, g, pkg) && pkg in refs && kept == refs[pkg].version != g.ref.version == seen)
  {
    assert (read + [g])[|read|] == g && forall m :: 0 <= m < |read| ==> (read + [g])[m] == read[m];
    StillDecides(cfg, read, g, pkg, kept);
    if pkg in refs && Decides(cfg, read, pkg, kept) { DecidedOnce(cfg, read, pkg, kept, refs[pkg].version); }
  }

  lemma RefTells(cfg: Config, rel: string, s: Scan, read: seq<Sighting>, r: Ref)
    requires Tells(cfg, s, read)
    ensures Tells(cfg, ScanRef(cfg, rel, s, r), read + [Sighting(rel, r)])
  {
    var g, s' := Sighting(rel, r), ScanRef(cfg, rel, s, r);
    HostMeaning(cfg, r.host);
    assert s'.refs == NextRefs(cfg, s.refs, g);
    forall pkg ensures Keeps(cfg, s'.refs, read + [g], pkg) { KeepsNext(cfg, s.refs, read, g, pkg); }
    forall x | OfRefs(x) ensures x in s'.warnings <==> RefNoted(cfg, read + [g], x) {
      NotedNext(cfg, rel, s, read, r, x);
    }
  }

  lemma NotedNext(cfg: Config, rel: string, s: Scan, read: seq<Sighting>, r: Ref, x: Warning)
    requires Tells(cfg, s, read) && OfRefs(x)
    ensures x in ScanRef(cfg, rel, s, r).warnings <==> RefNoted(cfg, read + [Sighting(rel, r)], x)
  {
    HostMeaning(cfg, r.host);
    match x
    case HostBlocked(host) => BlockedNext(cfg, read, Sighting(rel, r), host);
    case Conflict(pkg, kept, seen) => ConflictNext(cfg, s.refs, read, Sighting(rel, r), pkg, kept, seen);
  }

  // ---------- Which files are visited ----------

  function Rels(files: seq<File>): set<string> {
    set k | 0 <= k < |files| && files[k].rel.Some? :: files[k].rel.value
  }

  function FilesOf(r: Root): seq<File> {
    match r
    case Dir(files, _) => files
    case _ => []
  }

  /** The first file of this name, after those in `seen`. */
  predicate First(seen: set<string>, files: seq<File>, k: nat) {
    k < |files| && files[k].rel.Some? && files[k].rel.value !in seen + Rels(files[..k])
  }

  predicate IsNew(seen: set<string>, f: File) {
    f.rel.Some? && f.rel.value !in seen
  }

  /** Fewer new names than the limit come before it. */
  predicate Visited(cfg: Config, seen: set<string>, files: seq<File>, k: nat) {
    k < |files| && |Rels(files[..k]) - seen| < cfg.maxFiles
  }

  /** The walk is not cut short by the limit. */
  predicate AllVisited(cfg: Config, seen: set<string>, files: seq<File>) {
    files != [] ==> Visited(cfg, seen, files, |files| - 1)
  }

  function VisitedRels(cfg: Config, seen: set<string>, files: seq<File>): set<string> {
    set k | 0 <= k < |files| && Visited(cfg, seen, files, k) && files[k].rel.Some? :: files[k].rel.value
  }

  /** The references of a text file that can be read and is small enough. */
  function FileRead(cfg: Config, f: File): seq<Sighting> {
    if f.rel.Some? && f.textLike && f.content.Data? && f.content.size <= cfg.maxFileBytes
    then Sightings(f.rel.value, f.content.refs) else []
  }

  function Sightings(rel: string, refs: seq<Ref>): seq<Sighting> {
    seq(|refs|, i requires 0 <= i < |refs| => Sighting(rel, refs[i]))
  }

  /** A visited file whose name has not come up before. */
  predicate Opened(cfg: Config, seen: set<string>, files: seq<File>, k: nat) {
    Visited(cfg, seen, files, k) && First(seen, files, k)
  }

  function FilesRead(cfg: Config, seen: set<string>, files: seq<File>): seq<Sighting> {
    if files == [] then []
    else
      FilesRead(cfg, seen, files[..|files| - 1])
      + if Opened(cfg, seen, files, |files| - 1) then FileRead(cfg, files[|files| - 1]) else []
  }

  /** The note a file gives rise to. */
  predicate FileNoted(cfg: Config, seen: set<string>, files: seq<File>, k: nat, x: Warning) {
    && k < |files|
    && if !Visited(cfg, seen, files, k) then x == FileLimit
       else if files[k].rel.None? then x == BadRel
       else Opened(cfg, seen, files, k) && files[k].textLike && TextNoted(cfg, files[k].rel.value, files[k].content, x)
  }

  predicate TextNoted(cfg: Config, rel: string, c: Content, x: Warning) {
    match c
    case Unreadable => x == ReadFail(rel)
    case Data(size, _) => size > cfg.maxFileBytes && x == FileTooLarge(rel)
  }

  lemma RelsGrow(files: seq<File>, k: nat, n: nat)
    requires k <= n <= |files|
    ensures Rels(files[..k]) <= Rels(files[..n])
  {
    forall x | x in Rels(files[..k]) ensures x in Rels(files[..n]) {
      var j :| 0 <= j < k && files[..k][j].rel.Some? && files[..k][j].rel.value == x;
      assert files[..n][j] == files[j];
    }
  }

  /** Once the limit is reached no later file is visited. */
  lemma LimitLasts(cfg: Config, seen: set<string>, files: seq<File>, k: nat, n: nat)
    requires k <= n < |files| && Visited(cfg, seen, files, n)
    ensures Visited(cfg, seen, files, k)
  {
    RelsGrow(files, k, n);
    Fewer(Rels(files[..k]) - seen, Rels(files[..n]) - seen);
  }

  lemma Fewer(a: set<string>, b: set<string>)
    requires a <= b
    ensures |a| <= |b|
  {
    assert b == a + (b - a);
  }

  /** What comes after a file does not matter to it. */
  lemma PrefixDecides(cfg: Config, seen: set<string>, init: seq<File>, last: File, k: nat)
    requires k < |init|
    ensures Visited(cfg, seen, init + [last], k) <==> Visited(cfg, seen, init, k)
    ensures Opened(cfg, seen, init + [last], k) <==> Opened(cfg, seen, init, k)
    ensures forall x :: FileNoted(cfg, seen, init + [last], k, x) <==> FileNoted(cfg, seen, init, k, x)
  {
    assert (init + [last])[..k] == init[..k] && (init + [last])[k] == init[k];
  }

  // ---------- One more file ----------

  lemma RelsLast(init: seq<File>, last: File)
    requires last.rel.Some?
    ensures Rels(init + [last]) == Rels(init) + {last.rel.value}
  {
    var files := init + [last];
    forall x ensures x in Rels(files) <==> x in Rels(init) + {last.rel.value} {
      if x in Rels(init) {
        var k :| 0 <= k < |init| && init[k].rel.Some? && init[k].rel.value == x;
        assert files[k] == init[k];
      }
      if x == last.rel.value { assert files[|init|] == last; }
    }
  }

  lemma OneMore(rels: set<string>, seen: set<string>, x: string)
    ensures |rels + {x} - seen| == |rels - seen| + if x !in seen + rels then 1 else 0
    ensures seen + rels + {x} == seen + (rels + {x})
  {
    if x !in seen + rels {
      assert rels + {x} - seen == (rels - seen) + {x};
    } else {
      assert rels + {x} - seen == rels - seen;
    }
  }

  /** Where the walk is after these files. */
  predicate IsAt(cfg: Config, s: Scan, w: Walk, files: seq<File>) {
    && (w.open <==> AllVisited(cfg, s.seen, files))
    && (w.open ==> w.count == |Rels(files) - s.seen| && w.scan.seen == s.seen + Rels(files))
    && w.scan.seen == s.seen + VisitedRels(cfg, s.seen, files)
  }

  lemma NextVisited(cfg: Config, seen: set<string>, init: seq<File>, last: File)
    ensures var files := init + [last];
      && (Visited(cfg, seen, files, |init|) <==> |Rels(init) - seen| < cfg.maxFiles)
      && (Opened(cfg, seen, files, |init|) <==> Visited(cfg, seen, files, |init|) && IsNew(seen + Rels(init), last))
  {
    assert (init + [last])[..|init|] == init;
  }

  lemma VisitedBefore(cfg: Config, seen: set<string>, init: seq<File>, last: File)
    requires AllVisited(cfg, seen, init + [last])
    ensures AllVisited(cfg, seen, init)
  {
    if init != [] {
      var k: nat := |init| - 1;
      LimitLasts(cfg, seen, init + [last], k, |init|);
      PrefixDecides(cfg, seen, init, last, k);
    }
  }

  predicate RelAt(cfg: Config, seen: set<string>, files: seq<File>, k: nat, x: string) {
    Visited(cfg, seen, files, k) && files[k].rel == Some(x)
  }

  lemma IsVisitedRel(cfg: Config, seen: set<string>, files: seq<File>, x: string)
    ensures x in VisitedRels(cfg, seen, files) <==> exists k: nat :: RelAt(cfg, seen, files, k, x)
  {
    if x in VisitedRels(cfg, seen, files) {
      var k :| 0 <= k < |files| && Visited(cfg, seen, files, k) && files[k].rel.Some? && files[k].rel.value == x;
      assert RelAt(cfg, seen, files, k, x);
    }
  }

  lemma NextRels(cfg: Config, seen: set<string>, init: seq<File>, last: File)
    ensures VisitedRels(cfg, seen, init + [last]) == VisitedRels(cfg, seen, init) +
              if Visited(cfg, seen, init + [last], |init|) && last.rel.Some? then {last.rel.value} else {}
  {
    var files := init + [last];
    assert files[|init|] == last;
    forall x ensures x in VisitedRels(cfg, seen, files) <==>
                       x in VisitedRels(cfg, seen, init) || RelAt(cfg, seen, files, |init|, x)
    {
      NextRel(cfg, seen, init, last, x);
    }
  }

  lemma NextRel(cfg: Config, seen: set<string>, init: seq<File>, last: File, x: string)
    ensures x in VisitedRels(cfg, seen, init + [last]) <==>
              x in VisitedRels(cfg, seen, init) || RelAt(cfg, seen, init + [last], |init|, x)
  {
    var files := init + [last];
    IsVisitedRel(cfg, seen, files, x);
    IsVisitedRel(cfg, seen, init, x);
    forall k: nat | k < |init| ensures RelAt(cfg, seen, files, k, x) <==> RelAt(cfg, seen, init, k, x) {
      PrefixDecides(cfg, seen, init, last, k);
      assert files[k] == init[k];
    }
    if k: nat :| RelAt(cfg, seen, init, k, x) { assert RelAt(cfg, seen, files, k, x); }
  }

  lemma NextOpen(cfg: Config, s: Scan, init: seq<File>, w: Walk, last: File)
    requires IsAt(cfg, s, w, init)
    ensures AllVisited(cfg, s.seen, init + [last]) <==> Visited(cfg, s.seen, init + [last], |init|)
    ensures Visited(cfg, s.seen, init + [last], |init|) <==> w.open && w.count < cfg.maxFiles
  {
    NextVisited(cfg, s.seen, init, last);
    if AllVisited(cfg, s.seen, init + [last]) { VisitedBefore(cfg, s.seen, init, last); }
  }

  lemma NamedNext(cfg: Config, s: Scan, init: seq<File>, w: Walk, last: File)
    requires w.open && w.count < cfg.maxFiles && last.rel.Some?
    requires w.count == |Rels(init) - s.seen| && w.scan.seen == s.seen + Rels(init)
    ensures var w' := ScanFile(cfg, w, last);
      && w'.open && w'.count == |Rels(init + [last]) - s.seen|
      && w'.scan.seen == s.seen + Rels(init + [last]) == w.scan.seen + {last.rel.value}
  {
    RelsLast(init, last);
    OneMore(Rels(init), s.seen, last.rel.value);
    if last.content.Data? {
      SeenKept(cfg, last.rel.value, w.scan.(seen := w.scan.seen + {last.rel.value}), last.content.refs);
    }
  }

  /** The walk has ended, or does now. */
  lemma LimitNext(cfg: Config, s: Scan, init: seq<File>, w: Walk, last: File)
    requires IsAt(cfg, s, w, init) && !(w.open && w.count < cfg.maxFiles)
    ensures IsAt(cfg, s, ScanFile(cfg, w, last), init + [last])
  {
    NextOpen(cfg, s, init, w, last);
    NextRels(cfg, s.seen, init, last);
  }

  lemma NamelessNext(cfg: Config, s: Scan, init: seq<File>, w: Walk, last: File)
    requires IsAt(cfg, s, w, init) && w.open && w.count < cfg.maxFiles && last.rel.None?
    ensures IsAt(cfg, s, ScanFile(cfg, w, last), init + [last])
  {
    NextOpen(cfg, s, init, w, last);
    NextRels(cfg, s.seen, init, last);
    NamelessLast(init, last);
  }

  lemma NextAt(cfg: Config, s: Scan, init: seq<File>, w: Walk, last: File)
    requires IsAt(cfg, s, w, init)
    ensures IsAt(cfg, s, ScanFile(cfg, w, last), init + [last])
  {
    if !(w.open && w.count < cfg.maxFiles) {
      LimitNext(cfg, s, init, w, last);
    } else if last.rel.None? {
      NamelessNext(cfg, s, init, w, last);
    } else {
      NextOpen(cfg, s, init, w, last);
      NextRels(cfg, s.seen, init, last);
      NamedNext(cfg, s, init, w, last);
    }
  }

  lemma NamelessLast(init: seq<File>, last: File)
    requires last.rel.None?
    ensures Rels(init + [last]) == Rels(init)
  {
    var files := init + [last];
    forall x ensures x in Rels(files) <==> x in Rels(init) {
      if x in Rels(init) {
        var k :| 0 <= k < |init| && init[k].rel.Some? && init[k].rel.value == x;
        assert files[k] == init[k];
      }
    }
  }

  lemma NoneVisited(cfg: Config, seen: set<string>)
    ensures Rels([]) == {} && |Rels([]) - seen| == 0 && VisitedRels(cfg, seen, []) == {}
  {
    assert Rels([]) == {} && Rels([]) - seen == {};
  }

  lemma {:induction false} FilesAt(cfg: Config, s: Scan, files: seq<File>)
    ensures IsAt(cfg, s, ScanFiles(cfg, Walk(s, 0, true), files), files)
  {
    if files == [] {
      NoneVisited(cfg, s.seen);
    } else {
      var init, last := files[..|files| - 1], files[|files| - 1];
      FilesAt(cfg, s, init);
      NextAt(cfg, s, init, ScanFiles(cfg, Walk(s, 0, true), init), last);
      assert files == init + [last];
    }
  }

  // ---------- Its notes and references ----------

  lemma OtherNote(cfg: Config, s: Scan, read: seq<Sighting>, x: Warning)
    requires Tells(cfg, s, read) && !OfRefs(x)
    ensures Tells(cfg, Warn(s, x), read)
  {
  }

  lemma {:induction false} RefsTell(cfg: Config, rel: string, s: Scan, read: seq<Sighting>, refs: seq<Ref>)
    requires Tells(cfg, s, read)
    ensures Tells(cfg, ScanRefs(cfg, rel, s, refs), read + Sightings(rel, refs))
  {
    if refs == [] {
      assert read + Sightings(rel, []) == read;
    } else {
      var init, last := refs[..|refs| - 1], refs[|refs| - 1];
      RefsTell(cfg, rel, s, read, init);
      RefTells(cfg, rel, ScanRefs(cfg, rel, s, init), read + Sightings(rel, init), last);
      assert read + Sightings(rel, refs) == read + Sightings(rel, init) + [Sighting(rel, last)];
    }
  }

  /** A file read for the first time adds its references, any other file none. */
  lemma FileTells(cfg: Config, w: Walk, read: seq<Sighting>, f: File)
    requires Tells(cfg, w.scan, read)
    ensures Tells(cfg, ScanFile(cfg, w, f).scan,
                  read + if w.open && w.count < cfg.maxFiles && IsNew(w.scan.seen, f) then FileRead(cfg, f) else [])
  {
    assert read + [] == read;
    if w.open && w.count < cfg.maxFiles && IsNew(w.scan.seen, f) {
      var s := w.scan.(seen := w.scan.seen + {f.rel.value});
      assert Tells(cfg, s, read);
      if f.textLike && f.content.Data? && f.content.size <= cfg.maxFileBytes {
        RefsTell(cfg, f.rel.value, s, read, f.content.refs);
      }
    }
  }

  lemma {:induction false} FilesTell(cfg: Config, s: Scan, read: seq<Sighting>, files: seq<File>)
    requires Tells(cfg, s, read)
    ensures Tells(cfg, ScanFiles(cfg, Walk(s, 0, true), files).scan, read + FilesRead(cfg, s.seen, files))
  {
    if files == [] {
      assert read + [] == read;
    } else {
      var init, last := files[..|files| - 1], files[|files| - 1];
      var w := ScanFiles(cfg, Walk(s, 0, true), init);
      FilesTell(cfg, s, read, init);
      FilesAt(cfg, s, init);
      NextOpened(cfg, s, init, w, last);
      assert files == init + [last];
      FileTells(cfg, w, read + FilesRead(cfg, s.seen, init), last);
      Assoc(read, FilesRead(cfg, s.seen, init), if Opened(cfg, s.seen, files, |init|) then FileRead(cfg, last) else []);
    }
  }

  lemma Assoc<T>(a: seq<T>, b: seq<T>, c: seq<T>)
    ensures a + (b + c) == a + b + c
  {
  }

  lemma NextOpened(cfg: Config, s: Scan, init: seq<File>, w: Walk, last: File)
    requires IsAt(cfg, s, w, init)
    ensures Visited(cfg, s.seen, init + [last], |init|) <==> w.open && w.count < cfg.maxFiles
    ensures Opened(cfg, s.seen, init + [last], |init|) <==>
              w.open && w.count < cfg.maxFiles && IsNew(w.scan.seen, last)
  {
    NextVisited(cfg, s.seen, init, last);
    NextOpen(cfg, s, init, w, last);
  }

  /** References leave the other notes alone. */
  lemma {:induction false} RefsQuietElse(cfg: Config, rel: string, s: Scan, refs: seq<Ref>, x: Warning)
    requires !OfRefs(x)
    ensures x in ScanRefs(cfg, rel, s, refs).warnings <==> x in s.warnings
  {
    if refs != [] { RefsQuietElse(cfg, rel, s, refs[..|refs| - 1], x); }
  }

  lemma NextNote(cfg: Config, s: Scan, init: seq<File>, w: Walk, last: File, x: Warning)
    requires IsAt(cfg, s, w, init) && w.open && !OfRefs(x)
    ensures x in ScanFile(cfg, w, last).scan.warnings <==>
              x in w.scan.warnings || FileNoted(cfg, s.seen, init + [last], |init|, x)
  {
    NextOpened(cfg, s, init, w, last);
    WalkNote(cfg, w, last, x);
    assert (init + [last])[|init|] == last;
  }

  lemma WalkNote(cfg: Config, w: Walk, f: File, x: Warning)
    requires w.open && !OfRefs(x)
    ensures x in ScanFile(cfg, w, f).scan.warnings <==>
              || x in w.scan.warnings
              || if w.count >= cfg.maxFiles then x == FileLimit
                 else if f.rel.None? then x == BadRel
                 else IsNew(w.scan.seen, f) && f.textLike && TextNoted(cfg, f.rel.value, f.content, x)
  {
    if f.rel.Some? && f.content.Data? {
      RefsQuietElse(cfg, f.rel.value, w.scan.(seen := w.scan.seen + {f.rel.value}), f.content.refs, x);
    }
  }

  ghost predicate FilesNoted(cfg: Config, seen: set<string>, files: seq<File>, x: Warning) {
    exists k: nat :: FileNoted(cfg, seen, files, k, x)
  }

  lemma NotedBefore(cfg: Config, seen: set<string>, init: seq<File>, last: File, x: Warning)
    requires FilesNoted(cfg, seen, init, x)
    ensures FilesNoted(cfg, seen, init + [last], x)
  {
    var k: nat :| FileNoted(cfg, seen, init, k, x);
    PrefixDecides(cfg, seen, init, last, k);
    assert FileNoted(cfg, seen, init + [last], k, x);
  }

  lemma NotedUpTo(cfg: Config, seen: set<string>, init: seq<File>, last: File, x: Warning)
    requires FilesNoted(cfg, seen, init + [last], x)
    ensures FilesNoted(cfg, seen, init, x) || FileNoted(cfg, seen, init + [last], |init|, x)
  {
    var k: nat :| FileNoted(cfg, seen, init + [last], k, x);
    if k < |init| { PrefixDecides(cfg, seen, init, last, k); }
  }

  lemma {:induction false} FilesNote(cfg: Config, s: Scan, files: seq<File>, x: Warning)
    requires !OfRefs(x)
    ensures x in ScanFiles(cfg, Walk(s, 0, true), files).scan.warnings <==>
              x in s.warnings || FilesNoted(cfg, s.seen, files, x)
  {
    if files != [] {
      var init, last := files[..|files| - 1], files[|files| - 1];
      var w := ScanFiles(cfg, Walk(s, 0, true), init);
      FilesNote(cfg, s, init, x);
      FilesAt(cfg, s, init);
      assert files == init + [last];
      if FilesNoted(cfg, s.seen, init, x) { NotedBefore(cfg, s.seen, init, last, x); }
      if FilesNoted(cfg, s.seen, files, x) { NotedUpTo(cfg, s.seen, init, last, x); }
      if w.open { NextNote(cfg, s, init, w, last, x); } else { AfterLimit(cfg, s.seen, init, last, x); }
    }
  }

  /** Files after the limit have nothing to add. */
  lemma AfterLimit(cfg: Config, seen: set<string>, init: seq<File>, last: File, x: Warning)
    requires !AllVisited(cfg, seen, init)
    ensures FileNoted(cfg, seen, init + [last], |init|, x) ==> FilesNoted(cfg, seen, init, x)
  {
    if Visited(cfg, seen, init + [last], |init|) { VisitedBefore(cfg, seen, init, last); }
    assert FileNoted(cfg, seen, init, |init| - 1, FileLimit);
  }

  // ---------- One root after another ----------

  /** The names of the files visited in these roots. */
  function SeenIn(cfg: Config, roots: seq<Root>): set<string> {
    if roots == [] then {}
    else
      var seen := SeenIn(cfg, roots[..|roots| - 1]);
      seen + VisitedRels(cfg, seen, FilesOf(roots[|roots| - 1]))
  }

  /** The references read in these roots, in order. */
  function AllRead(cfg: Config, roots: seq<Root>): seq<Sighting> {
    if roots == [] then []
    else
      var init := roots[..|roots| - 1];
      AllRead(cfg, init) + FilesRead(cfg, SeenIn(cfg, init), FilesOf(roots[|roots| - 1]))
  }

  /** The notes a root gives rise to, but for those about references. */
  ghost predicate RootNotes(cfg: Config, seen: set<string>, i: nat, r: Root, x: Warning) {
    match r
    case Blank => false
    case Missing => false
    case Dir(files, broken) =>
      FilesNoted(cfg, seen, files, x) || (broken && AllVisited(cfg, seen, files) && x == WalkFail(i))
    case _ => x == BadRoot(i)
  }

  ghost predicate RootNoted(cfg: Config, roots: seq<Root>, i: nat, x: Warning) {
    i < |roots| && RootNotes(cfg, SeenIn(cfg, roots[..i]), i, roots[i], x)
  }

  ghost predicate AnyNoted(cfg: Config, roots: seq<Root>, x: Warning) {
    exists i: nat :: RootNoted(cfg, roots, i, x)
  }

  ghost predicate Noted(cfg: Config, roots: seq<Root>, x: Warning) {
    if OfRefs(x) then RefNoted(cfg, AllRead(cfg, roots), x) else AnyNoted(cfg, roots, x)
  }

  lemma NextRootSeen(cfg: Config, s: Scan, i: nat, r: Root)
    ensures ScanRoot(cfg, s, i, r).seen == s.seen + VisitedRels(cfg, s.seen, FilesOf(r))
  {
    FilesAt(cfg, s, FilesOf(r));
    if !r.Dir? { NoneVisited(cfg, s.seen); }
  }

  lemma NextRootTells(cfg: Config, s: Scan, i: nat, r: Root, read: seq<Sighting>)
    requires Tells(cfg, s, read)
    ensures Tells(cfg, ScanRoot(cfg, s, i, r), read + FilesRead(cfg, s.seen, FilesOf(r)))
  {
    FilesTell(cfg, s, read, FilesOf(r));
    assert read + [] == read;
  }

  lemma NextRootNotes(cfg: Config, s: Scan, i: nat, r: Root, x: Warning)
    requires !OfRefs(x)
    ensures x in ScanRoot(cfg, s, i, r).warnings <==> x in s.warnings || RootNotes(cfg, s.seen, i, r, x)
  {
    FilesAt(cfg, s, FilesOf(r));
    FilesNote(cfg, s, FilesOf(r), x);
  }

  lemma {:induction false} RootsSeen(cfg: Config, roots: seq<Root>)
    ensures ScanRoots(cfg, NOTHING, roots).seen == SeenIn(cfg, roots)
  {
    if roots != [] {
      var init, last := roots[..|roots| - 1], roots[|roots| - 1];
      RootsSeen(cfg, init);
      NextRootSeen(cfg, ScanRoots(cfg, NOTHING, init), |init|, last);
    }
  }

  lemma {:induction false} RootsTell(cfg: Config, roots: seq<Root>)
    ensures Tells(cfg, ScanRoots(cfg, NOTHING, roots), AllRead(cfg, roots))
  {
    if roots != [] {
      var init, last := roots[..|roots| - 1], roots[|roots| - 1];
      RootsTell(cfg, init);
      RootsSeen(cfg, init);
      NextRootTells(cfg, ScanRoots(cfg, NOTHING, init), |init|, last, AllRead(cfg, init));
    }
  }

  lemma NotedEarlier(cfg: Config, roots: seq<Root>, i: nat, x: Warning)
    requires i < |roots| - 1
    ensures RootNoted(cfg, roots, i, x) <==> RootNoted(cfg, roots[..|roots| - 1], i, x)
  {
    assert roots[..|roots| - 1][..i] == roots[..i];
  }

  lemma AnyNotedNext(cfg: Config, roots: seq<Root>, x: Warning)
    requires roots != []
    ensures AnyNoted(cfg, roots, x) <==>
              AnyNoted(cfg, roots[..|roots| - 1], x) || RootNoted(cfg, roots, |roots| - 1, x)
  {
    if AnyNoted(cfg, roots[..|roots| - 1], x) {
      var i: nat :| RootNoted(cfg, roots[..|roots| - 1], i, x);
      NotedEarlier(cfg, roots, i, x);
    }
    if AnyNoted(cfg, roots, x) {
      var i: nat :| RootNoted(cfg, roots, i, x);
      if i < |roots| - 1 { NotedEarlier(cfg, roots, i, x); }
    }
  }

  lemma LastNotes(cfg: Config, init: seq<Root>, last: Root, x: Warning)
    requires !OfRefs(x)
    ensures x in ScanRoot(cfg, ScanRoots(cfg, NOTHING, init), |init|, last).warnings <==>
              x in ScanRoots(cfg, NOTHING, init).warnings || RootNotes(cfg, SeenIn(cfg, init), |init|, last, x)
  {
    RootsSeen(cfg, init);
    NextRootNotes(cfg, ScanRoots(cfg, NOTHING, init), |init|, last, x);
  }

  lemma NotedLast(cfg: Config, init: seq<Root>, last: Root, x: Warning)
    ensures RootNoted(cfg, init + [last], |init|, x) <==> RootNotes(cfg, SeenIn(cfg, init), |init|, last, x)
  {
    assert (init + [last])[..|init|] == init;
  }

  ghost predicate NotedSomewhere(cfg: Config, roots: seq<Root>, x: Warning) {
    x in ScanRoots(cfg, NOTHING, roots).warnings <==> AnyNoted(cfg, roots, x)
  }

  lemma NotedNextRoot(cfg: Config, init: seq<Root>, last: Root, x: Warning)
    requires NotedSomewhere(cfg, init, x) && !OfRefs(x)
    ensures NotedSomewhere(cfg, init + [last], x)
  {
    var roots := init + [last];
    assert roots[..|roots| - 1] == init;
    AnyNotedNext(cfg, roots, x);
    LastNotes(cfg, init, last, x);
    NotedLast(cfg, init, last, x);
  }

  lemma {:induction false} RootsNote(cfg: Config, roots: seq<Root>, x: Warning)
    requires !OfRefs(x)
    ensures NotedSomewhere(cfg, roots, x)
  {
    if roots == [] {
      assert NOTHING.warnings == [];
    } else {
      var init, last := roots[..|roots| - 1], roots[|roots| - 1];
      RootsNote(cfg, init, x);
      NotedNextRoot(cfg, init, last, x);
      assert roots == init + [last];
    }
  }

  // ---------- What a scan notes and retains ----------

  /**
   * The notes of a scan are exactly: each root that is rejected, cannot be examined or is no directory, and each walk
   * that breaks off; reaching the file limit; each visited file without a name below the site, and each text file
   * opened that cannot be read or is too large; each reference to another host than the configured ones; and each
   * reference whose version is not that of the first reference to its package.
   */
  lemma NotedExactly(cfg: Config, roots: seq<Root>, x: Warning)
    ensures x in ScanRoots(cfg, NOTHING, roots).warnings <==> Noted(cfg, roots, x)
  {
    if OfRefs(x) { RootsTell(cfg, roots); } else { RootsNote(cfg, roots, x); }
  }

  lemma KeepsMeaning(cfg: Config, refs: map<string, ActiveRef>, read: seq<Sighting>, pkg: string)
    requires Keeps(cfg, refs, read, pkg)
    ensures pkg in refs <==> exists m :: 0 <= m < |read| && About(cfg, read[m], pkg)
  {
    if pkg in refs {
      var m: nat :| IsKept(cfg, read, m, pkg);
      assert About(cfg, read[m], pkg);
    }
  }

  /** The packages retained are those referenced on a configured host, each as last seen at its first version. */
  lemma RetainedExactly(cfg: Config, roots: seq<Root>, pkg: string)
    ensures var refs, read := ScanRoots(cfg, NOTHING, roots).refs, AllRead(cfg, roots);
      && (pkg in refs <==> exists m :: 0 <= m < |read| && About(cfg, read[m], pkg))
      && (pkg in refs ==> exists m: nat :: IsKept(cfg, read, m, pkg) && refs[pkg] == ActiveOf(read[m]))
  {
    RootsTell(cfg, roots);
    var refs, read := ScanRoots(cfg, NOTHING, roots).refs, AllRead(cfg, roots);
    assert Keeps(cfg, refs, read, pkg);
    KeepsMeaning(cfg, refs, read, pkg);
  }

  /** The file is opened, in the root it is in. */
  predicate OpenedIn(cfg: Config, roots: seq<Root>, i: nat, k: nat) {
    i < |roots| && Opened(cfg, SeenIn(cfg, roots[..i]), FilesOf(roots[i]), k)
  }

  predicate ReadIn(cfg: Config, roots: seq<Root>, i: nat, k: nat, g: Sighting) {
    OpenedIn(cfg, roots, i, k) && g in FileRead(cfg, FilesOf(roots[i])[k])
  }

  predicate ReadAt(cfg: Config, seen: set<string>, files: seq<File>, k: nat, g: Sighting) {
    Opened(cfg, seen, files, k) && g in FileRead(cfg, files[k])
  }

  ghost predicate AnyReadAt(cfg: Config, seen: set<string>, files: seq<File>, g: Sighting) {
    exists k: nat :: ReadAt(cfg, seen, files, k, g)
  }

  lemma AnyReadAtNext(cfg: Config, seen: set<string>, init: seq<File>, last: File, g: Sighting)
    ensures AnyReadAt(cfg, seen, init + [last], g) <==>
              AnyReadAt(cfg, seen, init, g) || ReadAt(cfg, seen, init + [last], |init|, g)
  {
    if AnyReadAt(cfg, seen, init, g) {
      var k: nat :| ReadAt(cfg, seen, init, k, g);
      PrefixDecides(cfg, seen, init, last, k);
      assert ReadAt(cfg, seen, init + [last], k, g);
    }
    if AnyReadAt(cfg, seen, init + [last], g) {
      var k: nat :| ReadAt(cfg, seen, init + [last], k, g);
      if k < |init| { PrefixDecides(cfg, seen, init, last, k); assert ReadAt(cfg, seen, init, k, g); }
    }
  }

  lemma NextRead(cfg: Config, seen: set<string>, init: seq<File>, last: File, g: Sighting)
    ensures g in FilesRead(cfg, seen, init + [last]) <==>
              g in FilesRead(cfg, seen, init) || ReadAt(cfg, seen, init + [last], |init|, g)
  {
    assert (init + [last])[..|init|] == init && (init + [last])[|init|] == last;
  }

  ghost predicate IsReadSomewhere(cfg: Config, seen: set<string>, files: seq<File>, g: Sighting) {
    g in FilesRead(cfg, seen, files) <==> AnyReadAt(cfg, seen, files, g)
  }

  lemma ReadNext(cfg: Config, seen: set<string>, init: seq<File>, last: File, g: Sighting)
    requires IsReadSomewhere(cfg, seen, init, g)
    ensures IsReadSomewhere(cfg, seen, init + [last], g)
  {
    AnyReadAtNext(cfg, seen, init, last, g);
    NextRead(cfg, seen, init, last, g);
  }

  lemma {:induction false} FilesReadExactly(cfg: Config, seen: set<string>, files: seq<File>, g: Sighting)
    ensures IsReadSomewhere(cfg, seen, files, g)
  {
    if files == [] {
      assert FilesRead(cfg, seen, []) == [];
    } else {
      var init, last := files[..|files| - 1], files[|files| - 1];
      FilesReadExactly(cfg, seen, init, g);
      ReadNext(cfg, seen, init, last, g);
      assert files == init + [last];
    }
  }

  predicate RootRead(cfg: Config, roots: seq<Root>, i: nat, g: Sighting) {
    i < |roots| && g in FilesRead(cfg, SeenIn(cfg, roots[..i]), FilesOf(roots[i]))
  }

  ghost predicate AnyRead(cfg: Config, roots: seq<Root>, g: Sighting) {
    exists i: nat :: RootRead(cfg, roots, i, g)
  }

  lemma ReadEarlier(cfg: Config, roots: seq<Root>, i: nat, g: Sighting)
    requires i < |roots| - 1
    ensures RootRead(cfg, roots, i, g) <==> RootRead(cfg, roots[..|roots| - 1], i, g)
  {
    assert roots[..|roots| - 1][..i] == roots[..i];
  }

  lemma AnyReadNext(cfg: Config, roots: seq<Root>, g: Sighting)
    requires roots != []
    ensures AnyRead(cfg, roots, g) <==>
              AnyRead(cfg, roots[..|roots| - 1], g) || RootRead(cfg, roots, |roots| - 1, g)
  {
    if AnyRead(cfg, roots[..|roots| - 1], g) {
      var i: nat :| RootRead(cfg, roots[..|roots| - 1], i, g);
      ReadEarlier(cfg, roots, i, g);
    }
    if AnyRead(cfg, roots, g) {
      var i: nat :| RootRead(cfg, roots, i, g);
      if i < |roots| - 1 { ReadEarlier(cfg, roots, i, g); }
    }
  }

  lemma {:induction false} RootsReadExactly(cfg: Config, roots: seq<Root>, g: Sighting)
    ensures g in AllRead(cfg, roots) <==> AnyRead(cfg, roots, g)
  {
    if roots != [] {
      RootsReadExactly(cfg, roots[..|roots| - 1], g);
      AnyReadNext(cfg, roots, g);
      LastRead(cfg, roots, g);
    }
  }

  lemma LastRead(cfg: Config, roots: seq<Root>, g: Sighting)
    requires roots != []
    ensures g in AllRead(cfg, roots) <==>
              g in AllRead(cfg, roots[..|roots| - 1]) || RootRead(cfg, roots, |roots| - 1, g)
  {
  }

  /** The references read are those of the text files opened that are readable and small enough. */
  lemma ReadExactly(cfg: Config, roots: seq<Root>, g: Sighting)
    ensures g in AllRead(cfg, roots) <==> exists i: nat, k: nat :: ReadIn(cfg, roots, i, k, g)
  {
    RootsReadExactly(cfg, roots, g);
    if i: nat :| RootRead(cfg, roots, i, g) {
      FilesReadExactly(cfg, SeenIn(cfg, roots[..i]), FilesOf(roots[i]), g);
      var k: nat :| ReadAt(cfg, SeenIn(cfg, roots[..i]), FilesOf(roots[i]), k, g);
      assert ReadIn(cfg, roots, i, k, g);
    }
    if i: nat, k: nat :| ReadIn(cfg, roots, i, k, g) {
      FilesReadExactly(cfg, SeenIn(cfg, roots[..i]), FilesOf(roots[i]), g);
      assert ReadAt(cfg, SeenIn(cfg, roots[..i]), FilesOf(roots[i]), k, g);
      assert RootRead(cfg, roots, i, g);
    }
  }
}
