/** The auditor's scan of the site for references to CDN packages. */
module SriScan {
  import opened Wrappers
  import opened Text

  /** A CDN reference as the pattern splits it. */
  datatype Ref = Ref(host: string, pkg: string, version: string, path: string)

  datatype Content = Unreadable | Data(size: nat, refs: seq<Ref>)

  /** A regular file met by the walk; `rel` is its path below the site, if that could be computed. */
  datatype File = File(rel: Option<string>, textLike: bool, content: Content)

  /** A configured scan root: how its name and directory turned out, and the walk if there was one. */
  datatype Root = Rejected | Blank | Missing | NoStat | NotDir | Dir(files: seq<File>, broken: bool)

  datatype Config = Config(hosts: seq<string>, maxFiles: nat, maxFileBytes: nat)

  datatype Warning =
    | BadRoot(i: nat) | FileLimit | BadRel | ReadFail(rel: string) | FileTooLarge(rel: string)
    | HostBlocked(host: string) | Conflict(pkg: string, kept: string, seen: string) | WalkFail(i: nat) | Cancelled
    | NoDataFile(name: string) | BadDataFile(name: string)
    | ApiFail(pkg: string) | BadUrl(url: string) | FetchFail(url: string) | MissingEntry(url: string)
    | FixFail(step: string)

  datatype ActiveRef = ActiveRef(url: string, pkg: string, version: string, host: string, source: string)

  datatype Scan = Scan(seen: set<string>, refs: map<string, ActiveRef>, warnings: seq<Warning>)

  // ---------- Hosts and urls ----------

  function LowerChar(c: char): char {
    if 'A' <= c <= 'Z' then (c as int + 32) as char else c
  }

  function Lower(s: string): string {
    seq(|s|, i requires 0 <= i < |s| => LowerChar(s[i]))
  }

  predicate HostAllowed(host: string, allowed: seq<string>) {
    exists i :: 0 <= i < |allowed| && Lower(TrimSpace(host)) == Lower(TrimSpace(allowed[i]))
  }

  function UrlOf(r: Ref): string {
    "https://" + Lower(r.host) + "/npm/" + r.pkg + "@" + r.version + "/" + r.path
  }

  // ---------- What each loop of the scan adds ----------

  function Warn(s: Scan, w: Warning): Scan {
    s.(warnings := s.warnings + [w])
  }

  function ScanRef(cfg: Config, rel: string, s: Scan, r: Ref): Scan {
    var host := Lower(r.host);
    if !HostAllowed(host, cfg.hosts) then Warn(s, HostBlocked(host))
    else if r.pkg in s.refs && s.refs[r.pkg].version != r.version then
      Warn(s, Conflict(r.pkg, s.refs[r.pkg].version, r.version))
    else s.(refs := s.refs[r.pkg := ActiveRef(UrlOf(r), r.pkg, r.version, host, rel)])
  }

  function ScanRefs(cfg: Config, rel: string, s: Scan, refs: seq<Ref>): Scan {
    if refs == [] then s
    else ScanRef(cfg, rel, ScanRefs(cfg, rel, s, refs[..|refs| - 1]), refs[|refs| - 1])
  }

  function ScanContent(cfg: Config, rel: string, s: Scan, c: Content): Scan {
    match c
    case Unreadable => Warn(s, ReadFail(rel))
    case Data(size, refs) => if size > cfg.maxFileBytes then Warn(s, FileTooLarge(rel)) else ScanRefs(cfg, rel, s, refs)
  }

  /** The scan, the files counted in this root, and whether the walk goes on. */
  datatype Walk = Walk(scan: Scan, count: nat, open: bool)

  function ScanFile(cfg: Config, w: Walk, f: File): Walk {
    if !w.open then w
    else if w.count >= cfg.maxFiles then Walk(Warn(w.scan, FileLimit), w.count, false)
    else match f.rel
      case None => w.(scan := Warn(w.scan, BadRel))
      case Some(rel) =>
        if rel in w.scan.seen then w
        else
          var s := w.scan.(seen := w.scan.seen + {rel});
          Walk(if f.textLike then ScanContent(cfg, rel, s, f.content) else s, w.count + 1, true)
  }

  function ScanFiles(cfg: Config, w: Walk, files: seq<File>): Walk {
    if files == [] then w else ScanFile(cfg, ScanFiles(cfg, w, files[..|files| - 1]), files[|files| - 1])
  }

  function ScanRoot(cfg: Config, s: Scan, i: nat, r: Root): Scan {
    match r
    case Blank => s
    case Missing => s
    case Dir(files, broken) =>
      var w := ScanFiles(cfg, Walk(s, 0, true), files);
      if broken && w.open then Warn(w.scan, WalkFail(i)) else w.scan
    case _ => Warn(s, BadRoot(i))
  }

  function ScanRoots(cfg: Config, s: Scan, roots: seq<Root>): Scan {
    if roots == [] then s
    else ScanRoot(cfg, ScanRoots(cfg, s, roots[..|roots| - 1]), |roots| - 1, roots[|roots| - 1])
  }

  const NOTHING := Scan({}, map[], [])

  // ---------- Whatever is settled stays settled ----------

  /** Later warnings come after earlier ones, files stay seen and a package keeps its version. */
  ghost predicate Extends(s: Scan, s': Scan) {
    && s.warnings <= s'.warnings && s.seen <= s'.seen
    && forall p :: p in s.refs ==> p in s'.refs && s'.refs[p].version == s.refs[p].version
  }

  lemma {:induction false} RefsExtend(cfg: Config, rel: string, s: Scan, refs: seq<Ref>)
    ensures Extends(s, ScanRefs(cfg, rel, s, refs))
  {
    if refs != [] { RefsExtend(cfg, rel, s, refs[..|refs| - 1]); }
  }

  lemma FileExtends(cfg: Config, w: Walk, f: File)
    ensures Extends(w.scan, ScanFile(cfg, w, f).scan)
  {
    if f.rel.Some? && f.content.Data? {
      RefsExtend(cfg, f.rel.value, w.scan.(seen := w.scan.seen + {f.rel.value}), f.content.refs);
    }
  }

  lemma {:induction false} FilesExtend(cfg: Config, w: Walk, files: seq<File>)
    ensures Extends(w.scan, ScanFiles(cfg, w, files).scan)
  {
    if files != [] {
      var w' := ScanFiles(cfg, w, files[..|files| - 1]);
      FilesExtend(cfg, w, files[..|files| - 1]);
      FileExtends(cfg, w', files[|files| - 1]);
    }
  }

  lemma RootExtends(cfg: Config, s: Scan, i: nat, r: Root)
    ensures Extends(s, ScanRoot(cfg, s, i, r))
  {
    if r.Dir? { FilesExtend(cfg, Walk(s, 0, true), r.files); }
  }

  // ---------- A scan without warnings has seen everything ----------

  /** The reference was accepted: its host is allowed and its version is the one kept for its package. */
  predicate Settled(cfg: Config, s: Scan, r: Ref) {
    HostAllowed(Lower(r.host), cfg.hosts) && r.pkg in s.refs && s.refs[r.pkg].version == r.version
  }

  /** Every reference of a readable text file small enough to scan is settled. */
  predicate FullyScanned(cfg: Config, s: Scan, f: File) {
    f.textLike ==>
      && f.content.Data? && f.content.size <= cfg.maxFileBytes
      && forall r :: r in f.content.refs ==> Settled(cfg, s, r)
  }

  lemma {:induction false} QuietRefs(cfg: Config, rel: string, s: Scan, refs: seq<Ref>)
    requires ScanRefs(cfg, rel, s, refs).warnings == []
    ensures forall r :: r in refs ==> Settled(cfg, ScanRefs(cfg, rel, s, refs), r)
  {
    if refs != [] {
      QuietRefs(cfg, rel, s, refs[..|refs| - 1]);
      var last := refs[|refs| - 1];
      assert refs == refs[..|refs| - 1] + [last];
      assert Settled(cfg, ScanRefs(cfg, rel, s, refs), last);
    }
  }

  ghost predicate InSite(roots: seq<Root>, f: File) {
    exists i :: 0 <= i < |roots| && roots[i].Dir? && f in roots[i].files
  }

  /** Overlapping roots meet the same file under the same name. */
  ghost predicate OneTree(tree: iset<File>) {
    forall f, g :: f in tree && g in tree && f.rel == g.rel ==> f == g
  }

  ghost predicate SeenScanned(cfg: Config, s: Scan, tree: iset<File>) {
    forall f :: f in tree && f.rel.Some? && f.rel.value in s.seen ==> FullyScanned(cfg, s, f)
  }

  lemma KeepsScanned(cfg: Config, s: Scan, s': Scan, f: File)
    requires Extends(s, s') && FullyScanned(cfg, s, f)
    ensures FullyScanned(cfg, s', f)
  {
  }

  lemma QuietFile(cfg: Config, w: Walk, f: File, tree: iset<File>)
    requires OneTree(tree) && f in tree && SeenScanned(cfg, w.scan, tree) && w.open
    requires ScanFile(cfg, w, f).scan.warnings == []
    ensures ScanFile(cfg, w, f).open && SeenScanned(cfg, ScanFile(cfg, w, f).scan, tree)
    ensures f.rel.Some? && f.rel.value in ScanFile(cfg, w, f).scan.seen
  {
    var s' := ScanFile(cfg, w, f).scan;
    FileExtends(cfg, w, f);
    if f.rel.value !in w.scan.seen {
      var s := w.scan.(seen := w.scan.seen + {f.rel.value});
      if f.textLike && f.content.Data? {
        QuietRefs(cfg, f.rel.value, s, f.content.refs);
        SeenKept(cfg, f.rel.value, s, f.content.refs);
      }
    }
    forall g | g in tree && g.rel.Some? && g.rel.value in s'.seen ensures FullyScanned(cfg, s', g) {
      if g.rel.value in w.scan.seen { KeepsScanned(cfg, w.scan, s', g); } else { assert g.rel == f.rel; }
    }
  }

  lemma {:induction false} SeenKept(cfg: Config, rel: string, s: Scan, refs: seq<Ref>)
    ensures ScanRefs(cfg, rel, s, refs).seen == s.seen
  {
    if refs != [] { SeenKept(cfg, rel, s, refs[..|refs| - 1]); }
  }

  lemma {:induction false} QuietFiles(cfg: Config, w: Walk, files: seq<File>, tree: iset<File>)
    requires OneTree(tree) && (forall f :: f in files ==> f in tree) && SeenScanned(cfg, w.scan, tree) && w.open
    requires ScanFiles(cfg, w, files).scan.warnings == []
    ensures ScanFiles(cfg, w, files).open && SeenScanned(cfg, ScanFiles(cfg, w, files).scan, tree)
    ensures forall f :: f in files ==> f.rel.Some? && f.rel.value in ScanFiles(cfg, w, files).scan.seen
  {
    if files != [] {
      var init, last := files[..|files| - 1], files[|files| - 1];
      var w' := ScanFiles(cfg, w, init);
      FileExtends(cfg, w', last);
      QuietFiles(cfg, w, init, tree);
      QuietFile(cfg, w', last, tree);
      assert files == init + [last];
    }
  }

  ghost function Tree(roots: seq<Root>): iset<File> {
    iset f | InSite(roots, f)
  }

  /** A root that is there was walked to its end, every file of it fully scanned. */
  ghost predicate RootCovered(cfg: Config, s: Scan, r: Root) {
    match r
    case Blank => true
    case Missing => true
    case Dir(files, broken) => !broken && forall f :: f in files ==> FullyScanned(cfg, s, f)
    case _ => false
  }

  lemma StaysCovered(cfg: Config, s: Scan, s': Scan, r: Root)
    requires RootCovered(cfg, s, r) && Extends(s, s')
    ensures RootCovered(cfg, s', r)
  {
    if r.Dir? {
      forall f | f in r.files ensures FullyScanned(cfg, s', f) { KeepsScanned(cfg, s, s', f); }
    }
  }

  lemma {:induction false} QuietRoots(cfg: Config, roots: seq<Root>, tree: iset<File>)
    requires OneTree(tree) && forall r, f :: r in roots && r.Dir? && f in r.files ==> f in tree
    requires ScanRoots(cfg, NOTHING, roots).warnings == []
    ensures SeenScanned(cfg, ScanRoots(cfg, NOTHING, roots), tree)
    ensures forall r :: r in roots ==> RootCovered(cfg, ScanRoots(cfg, NOTHING, roots), r)
  {
    if roots != [] {
      var init, last := roots[..|roots| - 1], roots[|roots| - 1];
      var s, s' := ScanRoots(cfg, NOTHING, init), ScanRoots(cfg, NOTHING, roots);
      RootExtends(cfg, s, |roots| - 1, last);
      QuietRoots(cfg, init, tree);
      QuietRoot(cfg, s, |roots| - 1, last, tree);
      forall r | r in init ensures RootCovered(cfg, s', r) { StaysCovered(cfg, s, s', r); }
      assert roots == init + [last];
    }
  }

  /** One more root. */
  lemma QuietRoot(cfg: Config, s: Scan, i: nat, r: Root, tree: iset<File>)
    requires OneTree(tree) && (r.Dir? ==> forall f :: f in r.files ==> f in tree)
    requires SeenScanned(cfg, s, tree) && ScanRoot(cfg, s, i, r).warnings == []
    ensures SeenScanned(cfg, ScanRoot(cfg, s, i, r), tree) && RootCovered(cfg, ScanRoot(cfg, s, i, r), r)
  {
    if r.Dir? {
      FilesExtend(cfg, Walk(s, 0, true), r.files);
      QuietFiles(cfg, Walk(s, 0, true), r.files, tree);
    }
  }

  /** Everything a scan without warnings vouches for. */
  lemma QuietScan(cfg: Config, roots: seq<Root>)
    requires OneTree(Tree(roots)) && ScanRoots(cfg, NOTHING, roots).warnings == []
    ensures forall r :: r in roots ==> RootCovered(cfg, ScanRoots(cfg, NOTHING, roots), r)
  {
    forall r, f | r in roots && r.Dir? && f in r.files ensures f in Tree(roots) {
      var i :| 0 <= i < |roots| && roots[i] == r;
      assert InSite(roots, f);
    }
    QuietRoots(cfg, roots, Tree(roots));
  }

  // ---------- Retained references ----------

  ghost predicate RefsSound(cfg: Config, s: Scan) {
    forall p :: p in s.refs ==>
      s.refs[p].pkg == p && HostAllowed(s.refs[p].host, cfg.hosts) && HasPrefix(s.refs[p].url, "https://")
  }

  lemma RefStaysSound(cfg: Config, rel: string, s: Scan, r: Ref)
    requires RefsSound(cfg, s)
    ensures RefsSound(cfg, ScanRef(cfg, rel, s, r))
  {
    assert UrlOf(r)[..8] == "https://";
  }

  lemma {:induction false} RefsStaySound(cfg: Config, rel: string, s: Scan, refs: seq<Ref>)
    requires RefsSound(cfg, s)
    ensures RefsSound(cfg, ScanRefs(cfg, rel, s, refs))
  {
    if refs != [] {
      RefsStaySound(cfg, rel, s, refs[..|refs| - 1]);
      RefStaysSound(cfg, rel, ScanRefs(cfg, rel, s, refs[..|refs| - 1]), refs[|refs| - 1]);
    }
  }

  lemma {:induction false} FilesStaySound(cfg: Config, w: Walk, files: seq<File>)
    requires RefsSound(cfg, w.scan)
    ensures RefsSound(cfg, ScanFiles(cfg, w, files).scan)
  {
    if files != [] {
      var w', f := ScanFiles(cfg, w, files[..|files| - 1]), files[|files| - 1];
      FilesStaySound(cfg, w, files[..|files| - 1]);
      if f.rel.Some? && f.content.Data? {
        RefsStaySound(cfg, f.rel.value, w'.scan.(seen := w'.scan.seen + {f.rel.value}), f.content.refs);
      }
    }
  }

  /** Every retained reference is filed under its own package, has an allowed host and an https url. */
  lemma {:induction false} RetainedSound(cfg: Config, roots: seq<Root>)
    ensures RefsSound(cfg, ScanRoots(cfg, NOTHING, roots))
  {
    if roots != [] {
      var s, last := ScanRoots(cfg, NOTHING, roots[..|roots| - 1]), roots[|roots| - 1];
      RetainedSound(cfg, roots[..|roots| - 1]);
      if last.Dir? { FilesStaySound(cfg, Walk(s, 0, true), last.files); }
    }
  }
}
