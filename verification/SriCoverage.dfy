/** Which of the references in the site a verdict of OK speaks of: one per package. */
module SriCoverage {
  import opened Wrappers
  import opened Text
  import opened SriScan
  import opened SriNotes
  import opened SriQuiet
  import opened SriEvaluate
  import opened SriFix
  import opened SriAudit

  // ---------- Every retained reference comes from the site ----------

  /** The reference stands in some text file that the walk meets. */
  ghost predicate InText(roots: seq<Root>, r: Ref) {
    exists f :: InSite(roots, f) && HasRef(f, r)
  }

  predicate HasRef(f: File, r: Ref) {
    f.textLike && f.content.Data? && r in f.content.refs
  }

  ghost predicate Stands(refs: iset<Ref>, a: ActiveRef, pkg: string) {
    exists r :: r in refs && r.pkg == pkg && UrlOf(r) == a.url
  }

  ghost predicate Sourced(s: Scan, refs: iset<Ref>) {
    forall p :: p in s.refs ==> Stands(refs, s.refs[p], p)
  }

  lemma RefSourced(cfg: Config, rel: string, s: Scan, r: Ref, all: iset<Ref>)
    requires Sourced(s, all) && r in all
    ensures Sourced(ScanRef(cfg, rel, s, r), all)
  {
    var s' := ScanRef(cfg, rel, s, r);
    forall p | p in s'.refs ensures Stands(all, s'.refs[p], p) {
      if p in s.refs && s'.refs[p] == s.refs[p] { assert Stands(all, s.refs[p], p); }
    }
  }

  lemma {:induction false} RefsSourced(cfg: Config, rel: string, s: Scan, refs: seq<Ref>, all: iset<Ref>)
    requires Sourced(s, all) && forall r :: r in refs ==> r in all
    ensures Sourced(ScanRefs(cfg, rel, s, refs), all)
  {
    if refs != [] {
      RefsSourced(cfg, rel, s, refs[..|refs| - 1], all);
      RefSourced(cfg, rel, ScanRefs(cfg, rel, s, refs[..|refs| - 1]), refs[|refs| - 1], all);
    }
  }

  lemma {:induction false} FilesSourced(cfg: Config, w: Walk, files: seq<File>, all: iset<Ref>)
    requires Sourced(w.scan, all) && forall f, r :: f in files && HasRef(f, r) ==> r in all
    ensures Sourced(ScanFiles(cfg, w, files).scan, all)
  {
    if files != [] {
      var w', f := ScanFiles(cfg, w, files[..|files| - 1]), files[|files| - 1];
      FilesSourced(cfg, w, files[..|files| - 1], all);
      FileSourced(cfg, w', f, all);
    }
  }

  lemma FileSourced(cfg: Config, w: Walk, f: File, all: iset<Ref>)
    requires Sourced(w.scan, all) && forall r :: HasRef(f, r) ==> r in all
    ensures Sourced(ScanFile(cfg, w, f).scan, all)
  {
    if f.rel.Some? {
      var s := w.scan.(seen := w.scan.seen + {f.rel.value});
      assert Sourced(s, all);
      if f.textLike && f.content.Data? {
        forall r | r in f.content.refs ensures r in all { assert HasRef(f, r); }
        RefsSourced(cfg, f.rel.value, s, f.content.refs, all);
      }
    }
  }

  lemma {:induction false} RootsSourced(cfg: Config, roots: seq<Root>, all: iset<Ref>)
    requires forall i, f, r :: 0 <= i < |roots| && roots[i].Dir? && f in roots[i].files && HasRef(f, r) ==> r in all
    ensures Sourced(ScanRoots(cfg, NOTHING, roots), all)
  {
    if roots != [] {
      var init, last := roots[..|roots| - 1], roots[|roots| - 1];
      RootsSourced(cfg, init, all);
      if last.Dir? { FilesSourced(cfg, Walk(ScanRoots(cfg, NOTHING, init), 0, true), last.files, all); }
    }
  }

  ghost function InTexts(roots: seq<Root>): iset<Ref> {
    iset r | InText(roots, r)
  }

  /** What is kept for a package is a reference to it in some text file. */
  lemma RetainedStands(cfg: Config, roots: seq<Root>)
    ensures Sourced(ScanRoots(cfg, NOTHING, roots), InTexts(roots))
  {
    forall i, f, r | 0 <= i < |roots| && roots[i].Dir? && f in roots[i].files && HasRef(f, r) ensures InText(roots, r) {
      assert InSite(roots, f);
    }
    RootsSourced(cfg, roots, InTexts(roots));
  }

  // ---------- What OK covers ----------

  /** The hash file has the digest of what is served at this url now. */
  predicate Covered(w: World, sri: SriDoc, url: string) {
    && url in SriEntries(w, sri) && w.net.fetch(url).Some?
    && SriEntries(w, sri)[url] == w.net.digest(w.net.fetch(url).value)
  }

  /** OK, for whatever hash file, means that each reference in a text file is covered. */
  ghost predicate OkCoversAll(w: World, cfg: Config, cdn: string, first: bool) {
    forall sri, r :: Healthy(w, cfg, cdn, sri, first) && InText(w.roots, r) ==> Covered(w, sri, UrlOf(r))
  }

  /** The scan keeps the url of each reference in a text file, for some package. */
  ghost predicate AllRetained(w: World, cfg: Config) {
    forall r :: InText(w.roots, r) ==> IsRetained(w, cfg, UrlOf(r))
  }

  ghost predicate IsRetained(w: World, cfg: Config, url: string) {
    exists p :: p in Retained(w, cfg) && Retained(w, cfg)[p].url == url
  }

  lemma RetainedCovered(w: World, cfg: Config, cdn: string, sri: SriDoc, first: bool, p: string)
    requires Healthy(w, cfg, cdn, sri, first) && p in Retained(w, cfg)
    ensures Covered(w, sri, Retained(w, cfg)[p].url)
  {
    RetainedSound(cfg, w.roots);
    var url := Retained(w, cfg)[p].url;
    assert url in SriEntries(w, sri) && HashFine(w.net, cfg, url, SriEntries(w, sri)[url]);
  }

  /** A site that is found healthy stays so when every hash but the retained ones is dropped. */
  lemma LeastHashes(w: World, cfg: Config, cdn: string, sri: SriDoc, first: bool) returns (least: SriDoc)
    requires Healthy(w, cfg, cdn, sri, first)
    ensures Healthy(w, cfg, cdn, least, first)
    ensures forall url :: url in SriEntries(w, least) ==> IsRetained(w, cfg, url)
  {
    var kept := map url | url in SriEntries(w, sri) && IsRetained(w, cfg, url) :: SriEntries(w, sri)[url];
    if w.sriFound {
      least := Doc(kept);
      forall p | p in Retained(w, cfg) ensures Retained(w, cfg)[p].url in kept {
        assert IsRetained(w, cfg, Retained(w, cfg)[p].url);
      }
      forall u | u in kept ensures HashFine(w.net, cfg, u, kept[u]) {
        assert u in SriEntries(w, sri) && HashFine(w.net, cfg, u, SriEntries(w, sri)[u]);
      }
    } else {
      least := sri;
    }
  }

  /**
   * Of a site that can be found healthy at all: OK covers every reference exactly if the scan retains each url. It
   * does not when a package is referenced by two urls, since the later one takes the place of the earlier.
   */
  lemma OkCoversAllIff(w: World, cfg: Config, cdn: string, sri: SriDoc, first: bool)
    requires Healthy(w, cfg, cdn, sri, first)
    ensures OkCoversAll(w, cfg, cdn, first) <==> AllRetained(w, cfg)
  {
    if AllRetained(w, cfg) {
      forall sri', r | Healthy(w, cfg, cdn, sri', first) && InText(w.roots, r) ensures Covered(w, sri', UrlOf(r)) {
        assert IsRetained(w, cfg, UrlOf(r));
        var p :| p in Retained(w, cfg) && Retained(w, cfg)[p].url == UrlOf(r);
        RetainedCovered(w, cfg, cdn, sri', first, p);
      }
    }
    if OkCoversAll(w, cfg, cdn, first) {
      var least := LeastHashes(w, cfg, cdn, sri, first);
      forall r | InText(w.roots, r) ensures IsRetained(w, cfg, UrlOf(r)) {
        assert Covered(w, least, UrlOf(r));
      }
    }
  }

  /** Each package is referenced by one url throughout the site. */
  ghost predicate OneUrlEach(roots: seq<Root>) {
    forall r, q :: InText(roots, r) && InText(roots, q) && r.pkg == q.pkg ==> UrlOf(r) == UrlOf(q)
  }

  /** Then OK covers every reference there is. */
  lemma OneUrlCovered(w: World, cfg: Config, cdn: string, sri: SriDoc, first: bool)
    requires Healthy(w, cfg, cdn, sri, first) && OneTree(Tree(w.roots)) && OneUrlEach(w.roots)
    ensures AllRetained(w, cfg)
  {
    var s := ScanRoots(cfg, NOTHING, w.roots);
    QuietExactly(cfg, w.roots);
    QuietScan(cfg, w.roots);
    RetainedStands(cfg, w.roots);
    forall r | InText(w.roots, r) ensures IsRetained(w, cfg, UrlOf(r)) {
      var f :| InSite(w.roots, f) && HasRef(f, r);
      var i :| 0 <= i < |w.roots| && w.roots[i].Dir? && f in w.roots[i].files;
      assert RootCovered(cfg, s, w.roots[i]) && FullyScanned(cfg, s, f) && Settled(cfg, s, r);
      assert Stands(InTexts(w.roots), s.refs[r.pkg], r.pkg);
      assert r.pkg in Retained(w, cfg) && Retained(w, cfg)[r.pkg].url == UrlOf(r);
    }
  }

  // ---------- A reference that OK passes over ----------

  /** A site of one file with two references. */
  function TwoRefs(net: Net, r: Ref, q: Ref): World {
    World([Dir([File(Some("index.html"), true, Data(0, [r, q]))], false)], 1, net, true, true, true, true,
          _ => Some(map[]))
  }

  /** Of two files of one package and version the first may be missing from the hash file: the site is healthy. */
  lemma FirstUnseen(net: Net, cfg: Config, r: Ref, q: Ref)
    requires r.pkg == q.pkg && r.version == q.version && Lower(r.host) == Lower(q.host) && r.path != q.path
    requires HostAllowed(Lower(r.host), cfg.hosts) && cfg.maxFiles > 0
    requires net.fetch(UrlOf(q)).Some? && net.urlHost(UrlOf(q)) == Some(q.host)
    ensures var w, sri := TwoRefs(net, r, q), Doc(map[UrlOf(q) := net.digest(net.fetch(UrlOf(q)).value)]);
      && Healthy(w, cfg, "", sri, true)
      && InText(w.roots, r) && UrlOf(r) !in SriEntries(w, sri) && !Covered(w, sri, UrlOf(r))
  {
    var w := TwoRefs(net, r, q);
    TwoScanned(net, cfg, r, q);
    QuietExactly(cfg, w.roots);
    HostMeaning(cfg, q.host);
    UrlsApart("https://" + Lower(r.host) + "/npm/" + r.pkg + "@" + r.version + "/", r.path, q.path);
    assert w.roots[0].files[0] in w.roots[0].files;
    assert InSite(w.roots, w.roots[0].files[0]) && HasRef(w.roots[0].files[0], r);
  }

  lemma UrlsApart(s: string, a: string, b: string)
    requires a != b
    ensures s + a != s + b
  {
    assert (s + a)[|s|..] == a && (s + b)[|s|..] == b;
  }

  /** The second reference takes the place of the first. */
  lemma TwoScanned(net: Net, cfg: Config, r: Ref, q: Ref)
    requires r.pkg == q.pkg && r.version == q.version && Lower(r.host) == Lower(q.host)
    requires HostAllowed(Lower(r.host), cfg.hosts) && cfg.maxFiles > 0
    ensures var s := ScanRoots(cfg, NOTHING, TwoRefs(net, r, q).roots);
      && s.warnings == []
      && s.refs == map[q.pkg := ActiveRef(UrlOf(q), q.pkg, q.version, Lower(q.host), "index.html")]
  {
    var file := File(Some("index.html"), true, Data(0, [r, q]));
    var root := Dir([file], false);
    assert [root][..0] == [] && [file][..0] == [] && [r, q][..1] == [r] && [r][..0] == [];
    var seen := NOTHING.(seen := {} + {"index.html"});
    assert ScanRefs(cfg, "index.html", seen, []) == seen;
    assert ScanRefs(cfg, "index.html", seen, [r]) == ScanRef(cfg, "index.html", seen, r);
    assert ScanFiles(cfg, Walk(NOTHING, 0, true), []) == Walk(NOTHING, 0, true);
  }
}
