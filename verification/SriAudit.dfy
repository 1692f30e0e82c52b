/** One audit: scan, evaluate, fix if asked to, evaluate again, and the verdict. */
module SriAudit {
  import opened Wrappers
  import opened Text
  import opened Versions
  import opened SriScan
  import opened SriNotes
  import opened SriQuiet
  import opened SriEvaluate
  import opened SriFix
  import opened SriNames
  import opened SriRename

  /** The two data files. */
  class Disk {
    var cdn: string
    var sri: SriDoc

    constructor (cdn: string, sri: SriDoc)
      ensures this.cdn == cdn && this.sri == sri
    {
      this.cdn, this.sri := cdn, sri;
    }
  }

  // ---------- The fix ----------

  /** Nothing stops the fix before it writes the files. */
  ghost predicate Drafted(net: Net, cands: seq<Candidate>, entries: map<string, string>, sri: SriDoc, f: Faults) {
    && cands != [] && !f.readCdn && !f.readSri && sri.Doc?
    && forall m :: IsMove(cands, entries, m) ==> net.fetch(m.dst).Some?
  }

  /** Every step from the first write on works. */
  predicate Committed(f: Faults) {
    !f.writeCdn && !f.marshal && !f.writeSri && !f.build
  }

  datatype Outcome = Outcome(fixed: bool, cdn: string, sri: SriDoc)

  /**
   * What is on disk afterwards. A failing write leaves its file as it was; once the CDN file is written, a
   * later failure puts it back, and the hash file too if that was written.
   */
  function OutcomeOf(drafted: bool, f: Faults, cdn: string, sri: SriDoc, cdn': string, sri': SriDoc): Outcome {
    if !drafted || f.writeCdn then Outcome(false, cdn, sri)
    else if f.marshal || f.writeSri then Outcome(false, if f.restoreCdn then cdn' else cdn, sri)
    else if f.build then Outcome(false, if f.restoreCdn then cdn' else cdn, if f.restoreSri then sri' else sri)
    else Outcome(true, cdn', sri')
  }

  /** Something failed after the first write, and putting a written file back failed as well. */
  predicate Torn(f: Faults) {
    && !f.writeCdn && (f.marshal || f.writeSri || f.build)
    && (f.restoreCdn || (!f.marshal && !f.writeSri && f.restoreSri))
  }

  /** All or nothing, exactly unless putting a file back fails. */
  lemma AllOrNothing(drafted: bool, f: Faults, cdn: string, sri: SriDoc, cdn': string, sri': SriDoc)
    requires cdn != cdn' && sri != sri'
    ensures OutcomeOf(drafted, f, cdn, sri, cdn', sri') in {Outcome(false, cdn, sri), Outcome(true, cdn', sri')}
            <==> !(drafted && Torn(f))
    ensures OutcomeOf(drafted, f, cdn, sri, cdn', sri').fixed <==> drafted && Committed(f)
  {
  }

  /** A file is new afterwards, exactly if the fix succeeded, or wrote it, failed later, and could not put it back. */
  lemma LeftBehind(drafted: bool, f: Faults, cdn: string, sri: SriDoc, cdn': string, sri': SriDoc)
    requires cdn != cdn' && sri != sri'
    ensures var o := OutcomeOf(drafted, f, cdn, sri, cdn', sri');
      var wroteCdn, wroteSri := drafted && !f.writeCdn, drafted && !f.writeCdn && !f.marshal && !f.writeSri;
      && o.cdn == (if o.fixed || (wroteCdn && f.restoreCdn) then cdn' else cdn)
      && o.sri == (if o.fixed || (wroteSri && f.restoreSri) then sri' else sri)
  {
  }

  /** The note says which step of the fix is the first to fail. */
  ghost predicate FixNoted(drafted: bool, f: Faults, sri: SriDoc, x: Warning) {
    || (f.readCdn && x == FixFail("read cdn"))
    || (!f.readCdn && f.readSri && x == FixFail("read sri"))
    || (!f.readCdn && !f.readSri && sri.Garbled? && x == FixFail("parse sri"))
    || (!f.readCdn && !f.readSri && sri.Doc? && !drafted && x == FixFail("fetch"))
    || (drafted && f.writeCdn && x == FixFail("write cdn"))
    || (drafted && !f.writeCdn && f.marshal && x == FixFail("marshal sri"))
    || (drafted && !f.writeCdn && !f.marshal && f.writeSri && x == FixFail("write sri"))
    || (drafted && !f.writeCdn && !f.marshal && !f.writeSri && f.build && x == FixFail("build"))
  }

  /** The urls a candidate matches, in the order the map happens to be walked in. */
  method MatchedUrls(entries: map<string, string>, c: Candidate) returns (matched: seq<string>)
    ensures forall u :: u in matched <==> u in entries && Matches(u, c)
  {
    matched := [];
    var todo := entries.Keys;
    while todo != {}
      invariant todo <= entries.Keys
      invariant forall u :: u in matched <==> u in entries && u !in todo && Matches(u, c)
      decreases |todo|
    {
      var u :| u in todo;
      todo := todo - {u};
      if Matches(u, c) { matched := matched + [u]; }
    }
  }

  lemma AppliedOne(net: Net, entries: map<string, string>, moves: seq<Move>, m: Move)
    ensures ApplyMoves(net, entries, moves + [m]) ==
              (ApplyMoves(net, entries, moves) - {m.src})[m.dst := Live(net, m.dst)]
  {
    assert (moves + [m])[..|moves + [m]| - 1] == moves;
  }

  ghost predicate Fetched(net: Net, moves: seq<Move>) {
    forall m :: m in moves ==> net.fetch(m.dst).Some?
  }

  /** One candidate's renames, fetching each new url; stops at the first that cannot be fetched. */
  method RenameUrls(net: Net, c: Candidate, sri: map<string, string>, matched: seq<string>)
    returns (ok: bool, sri': map<string, string>, ghost more: seq<Move>)
    ensures ok <==> forall u :: u in matched ==> net.fetch(NewUrl(u, c)).Some?
    ensures ok ==> |more| == |matched| && forall i :: 0 <= i < |matched| ==> more[i] == MoveFor(matched[i], c)
    ensures ok ==> sri' == ApplyMoves(net, sri, more)
  {
    sri', more := sri, [];
    for i := 0 to |matched|
      invariant |more| == i && forall j :: 0 <= j < i ==> more[j] == MoveFor(matched[j], c)
      invariant forall j :: 0 <= j < i ==> net.fetch(NewUrl(matched[j], c)).Some?
      invariant sri' == ApplyMoves(net, sri, more)
    {
      var newUrl := NewUrl(matched[i], c);
      var body := net.fetch(newUrl);
      if body.None? { return false, sri', more; }
      AppliedOne(net, sri, more, MoveFor(matched[i], c));
      more := more + [MoveFor(matched[i], c)];
      sri' := (sri' - {matched[i]})[newUrl := net.digest(body.value)];
    }
    return true, sri', more;
  }

  lemma {:induction false} AppliedAll(net: Net, entries: map<string, string>, moves: seq<Move>, more: seq<Move>)
    ensures ApplyMoves(net, entries, moves + more) == ApplyMoves(net, ApplyMoves(net, entries, moves), more)
  {
    AppliedUpTo(net, entries, moves, more, |more|);
    assert more[..|more|] == more;
  }

  lemma {:induction false} AppliedUpTo(net: Net, entries: map<string, string>, moves: seq<Move>, more: seq<Move>,
      n: nat)
    requires n <= |more|
    ensures ApplyMoves(net, entries, moves + more[..n]) == ApplyMoves(net, ApplyMoves(net, entries, moves), more[..n])
  {
    if n == 0 {
      assert moves + more[..0] == moves;
    } else {
      AppliedUpTo(net, entries, moves, more, n - 1);
      AppliedNext(net, entries, moves, more[..n - 1], more[n - 1]);
      assert more[..n] == more[..n - 1] + [more[n - 1]];
    }
  }

  lemma AppliedNext(net: Net, entries: map<string, string>, moves: seq<Move>, init: seq<Move>, last: Move)
    requires ApplyMoves(net, entries, moves + init) == ApplyMoves(net, ApplyMoves(net, entries, moves), init)
    ensures ApplyMoves(net, entries, moves + (init + [last])) ==
              ApplyMoves(net, ApplyMoves(net, entries, moves), init + [last])
  {
    assert moves + (init + [last]) == moves + init + [last];
    AppliedOne(net, entries, moves + init, last);
    AppliedOne(net, ApplyMoves(net, entries, moves), init, last);
  }

  lemma BlockOf(c: Candidate, entries: map<string, string>, matched: seq<string>, moves: seq<Move>)
    requires c.next != "" && forall u :: u in matched <==> u in entries && Matches(u, c)
    requires |moves| == |matched| && forall i :: 0 <= i < |matched| ==> moves[i] == MoveFor(matched[i], c)
    ensures IsBlock(c, entries, moves)
  {
    forall m ensures m in moves <==> MovesBy(c, entries, m) {
      if m in moves {
        var i :| 0 <= i < |moves| && moves[i] == m;
        assert matched[i] in matched;
      }
      if MovesBy(c, entries, m) {
        var i :| 0 <= i < |matched| && matched[i] == m.src;
        assert moves[i] == m;
      }
    }
  }

  lemma NextBlock(cands: seq<Candidate>, i: nat, entries: map<string, string>, moves: seq<Move>, more: seq<Move>)
    requires i < |cands| && IsWalk(cands[..i], entries, moves) && IsBlock(cands[i], entries, more)
    ensures IsWalk(cands[..i + 1], entries, moves + more)
  {
    OneMoreBlock(cands[..i], cands[i], entries, moves, more);
    assert cands[..i] + [cands[i]] == cands[..i + 1];
  }

  /** The new contents of both files, or nothing if some renamed url cannot be fetched. */
  method Draft(net: Net, cands: seq<Candidate>, entries: map<string, string>, cdn: string, sri: map<string, string>)
    returns (ok: bool, cdn': string, sri': map<string, string>, ghost moves: seq<Move>)
    ensures ok <==> forall m :: IsMove(cands, entries, m) ==> net.fetch(m.dst).Some?
    ensures ok ==> IsWalk(cands, entries, moves)
    ensures ok ==> cdn' == RewriteAll(cdn, cands) && sri' == ApplyMoves(net, sri, moves)
  {
    cdn', sri', moves := cdn, sri, [];
    assert cands[..0] == [];
    for i := 0 to |cands|
      invariant IsWalk(cands[..i], entries, moves) && Fetched(net, moves)
      invariant cdn' == RewriteAll(cdn, cands[..i]) && sri' == ApplyMoves(net, sri, moves)
    {
      var c := cands[i];
      assert cands[..i + 1][..i] == cands[..i];
      ghost var more: seq<Move> := [];
      if c.next != "" {
        cdn' := RewriteCdn(cdn', c);
        var matched := MatchedUrls(entries, c);
        var done: bool;
        ghost var before := sri';
        done, sri', more := RenameUrls(net, c, sri', matched);
        if !done {
          var u :| u in matched && net.fetch(NewUrl(u, c)).None?;
          assert MovesBy(c, entries, MoveFor(u, c)) && IsMove(cands, entries, MoveFor(u, c));
          return false, cdn', sri', moves;
        }
        AppliedAll(net, sri, moves, more);
        BlockOf(c, entries, matched, more);
      } else {
        assert moves + more == moves;
      }
      NextBlock(cands, i, entries, moves, more);
      moves := moves + more;
    }
    assert cands[..|cands|] == cands;
    forall m | IsMove(cands, entries, m) ensures m in moves { WalkMoves(cands, entries, moves, m); }
    return true, cdn', sri', moves;
  }

  method ApplyAutoFix(disk: Disk, net: Net, cands: seq<Candidate>, entries: map<string, string>, f: Faults)
    returns (fixed: bool, warnings: seq<Warning>, ghost moves: seq<Move>)
    modifies disk
    ensures var drafted := Drafted(net, cands, entries, old(disk.sri), f);
      && (drafted ==> IsWalk(cands, entries, moves))
      && Outcome(fixed, disk.cdn, disk.sri) ==
           OutcomeOf(drafted, f, old(disk.cdn), old(disk.sri), RewriteAll(old(disk.cdn), cands),
                     if old(disk.sri).Doc? then Doc(ApplyMoves(net, old(disk.sri).entries, moves)) else Garbled)
    ensures cands != [] ==> (fixed <==> warnings == [])
    ensures cands != [] ==>
              forall x :: x in warnings <==>
                FixNoted(Drafted(net, cands, entries, old(disk.sri), f), f, old(disk.sri), x)
  {
    moves := [];
    if cands == [] { return false, [], moves; }
    if f.readCdn { return false, [FixFail("read cdn")], moves; }
    if f.readSri { return false, [FixFail("read sri")], moves; }
    var originalCdn, originalSri := disk.cdn, disk.sri;
    if originalSri.Garbled? { return false, [FixFail("parse sri")], moves; }
    var ok, cdn', sri';
    ok, cdn', sri', moves := Draft(net, cands, entries, originalCdn, originalSri.entries);
    if !ok { return false, [FixFail("fetch")], moves; }
    if f.writeCdn { return false, [FixFail("write cdn")], moves; }
    disk.cdn := cdn';
    if f.marshal {
      if !f.restoreCdn { disk.cdn := originalCdn; }
      return false, [FixFail("marshal sri")], moves;
    }
    if f.writeSri {
      if !f.restoreCdn { disk.cdn := originalCdn; }
      return false, [FixFail("write sri")], moves;
    }
    disk.sri := Doc(sri');
    if f.build {
      if !f.restoreCdn { disk.cdn := originalCdn; }
      if !f.restoreSri { disk.sri := originalSri; }
      return false, [FixFail("build")], moves;
    }
    return true, [], moves;
  }

  // ---------- The evaluation ----------

  lemma {:induction false} ClosedWalk(cfg: Config, w: Walk, files: seq<File>, i: nat)
    requires i <= |files| && !ScanFiles(cfg, w, files[..i]).open
    ensures ScanFiles(cfg, w, files) == ScanFiles(cfg, w, files[..i])
    decreases |files| - i
  {
    if i < |files| {
      assert files[..i + 1][..i] == files[..i];
      ClosedWalk(cfg, w, files, i + 1);
    } else {
      assert files[..i] == files;
    }
  }

  /** The roots that are scanned if the request is cancelled before root `cancelAt`. */
  function Reached(roots: seq<Root>, cancelAt: nat): seq<Root> {
    if cancelAt < |roots| then roots[..cancelAt] else roots
  }

  class RunState {
    var activeRefs: map<string, ActiveRef>
    var diagnosis: Diagnosis

    constructor ()
      ensures activeRefs == map[] && diagnosis == BLANK
    {
      activeRefs, diagnosis := map[], BLANK;
    }

    method ScanOneFile(cfg: Config, seen: set<string>, warnings: seq<Warning>, count: nat, file: File)
      returns (seen': set<string>, warnings': seq<Warning>, count': nat, more: bool)
      modifies this`activeRefs
      ensures Walk(Scan(seen', activeRefs, warnings'), count', more) ==
                ScanFile(cfg, Walk(Scan(seen, old(activeRefs), warnings), count, true), file)
    {
      seen', warnings', count', more := seen, warnings, count, true;
      if count >= cfg.maxFiles { return seen, warnings + [FileLimit], count, false; }
      if file.rel.None? { return seen, warnings + [BadRel], count, true; }
      var rel := file.rel.value;
      if rel in seen { return; }
      seen', count' := seen + {rel}, count + 1;
      if !file.textLike { return; }
      if file.content.Unreadable? { return seen', warnings + [ReadFail(rel)], count', true; }
      if file.content.size > cfg.maxFileBytes { return seen', warnings + [FileTooLarge(rel)], count', true; }
      var refs := file.content.refs;
      ghost var s0 := Scan(seen', activeRefs, warnings);
      for i := 0 to |refs|
        invariant Scan(seen', activeRefs, warnings') == ScanRefs(cfg, rel, s0, refs[..i])
      {
        assert refs[..i + 1][..i] == refs[..i];
        var r := refs[i];
        var host := Lower(r.host);
        if !HostAllowed(host, cfg.hosts) {
          warnings' := warnings' + [HostBlocked(host)];
        } else if r.pkg in activeRefs && activeRefs[r.pkg].version != r.version {
          warnings' := warnings' + [Conflict(r.pkg, activeRefs[r.pkg].version, r.version)];
        } else {
          activeRefs := activeRefs[r.pkg := ActiveRef(UrlOf(r), r.pkg, r.version, host, rel)];
        }
      }
      assert refs[..|refs|] == refs;
    }

    method ScanDir(cfg: Config, seen: set<string>, warnings: seq<Warning>, i: nat, files: seq<File>, broken: bool)
      returns (seen': set<string>, warnings': seq<Warning>)
      modifies this`activeRefs
      ensures Scan(seen', activeRefs, warnings') ==
                ScanRoot(cfg, Scan(seen, old(activeRefs), warnings), i, Dir(files, broken))
    {
      ghost var w0 := Walk(Scan(seen, activeRefs, warnings), 0, true);
      seen', warnings' := seen, warnings;
      var count, more, k := 0, true, 0;
      while k < |files| && more
        invariant 0 <= k <= |files|
        invariant Walk(Scan(seen', activeRefs, warnings'), count, more) == ScanFiles(cfg, w0, files[..k])
      {
        assert files[..k + 1][..k] == files[..k];
        seen', warnings', count, more := ScanOneFile(cfg, seen', warnings', count, files[k]);
        k := k + 1;
      }
      if !more { ClosedWalk(cfg, w0, files, k); } else { assert files[..k] == files; }
      if broken && more { warnings' := warnings' + [WalkFail(i)]; }
    }

    /** All roots in turn, unless the request is cancelled before root `cancelAt`. */
    method ScanAll(cfg: Config, roots: seq<Root>, cancelAt: nat) returns (warnings: seq<Warning>)
      requires activeRefs == map[]
      modifies this`activeRefs
      ensures var s := ScanRoots(cfg, NOTHING, Reached(roots, cancelAt));
        activeRefs == s.refs && warnings == s.warnings + if cancelAt < |roots| then [Cancelled] else []
    {
      warnings := [];
      var seen: set<string> := {};
      for i := 0 to |roots|
        invariant i <= cancelAt || i == 0
        invariant Scan(seen, activeRefs, warnings) == ScanRoots(cfg, NOTHING, roots[..i])
      {
        if i >= cancelAt { return warnings + [Cancelled]; }
        assert roots[..i + 1][..i] == roots[..i];
        match roots[i]
        case Blank =>
        case Missing =>
        case Dir(files, broken) => seen, warnings := ScanDir(cfg, seen, warnings, i, files, broken);
        case _ => warnings := warnings + [BadRoot(i)];
      }
      assert roots[..|roots|] == roots;
    }

    method EvaluateEntry(net: Net, key: string, e: CdnEntry)
      modifies this`diagnosis
      ensures diagnosis == VersionStep(net, activeRefs, old(diagnosis), key, e)
    {
      if e.pkg !in activeRefs { return; }
      var latest := net.latest(e.pkg);
      if latest.None? || latest.value == "" {
        diagnosis := diagnosis.(other := diagnosis.other + [ApiFail(e.pkg)]);
        return;
      }
      if e.version == latest.value { return; }
      var c := CompareVersions(e.version, latest.value);
      if c >= 0 { return; }
      if SameMajor(e.version, latest.value) {
        diagnosis := diagnosis.(candidates := diagnosis.candidates + [Candidate(key, e.pkg, e.version, latest.value)]);
        return;
      }
      diagnosis := diagnosis.(major := diagnosis.major + [e.pkg]);
    }

    /** The entries in whatever order the map is walked; the order is reported back for the proof. */
    method EvaluateVersions(net: Net, entries: map<string, CdnEntry>) returns (ghost order: seq<string>)
      modifies this`diagnosis
      ensures (forall k :: k in order <==> k in entries) && |order| == |entries|
      ensures diagnosis == VersionFold(net, activeRefs, old(diagnosis), entries, order)
    {
      order := [];
      var todo := entries.Keys;
      while todo != {}
        invariant todo <= entries.Keys && forall k :: k in order <==> k in entries && k !in todo
        invariant |order| + |todo| == |entries|
        invariant diagnosis == VersionFold(net, activeRefs, old(diagnosis), entries, order)
        decreases |todo|
      {
        var key :| key in todo;
        assert (order + [key])[..|order|] == order;
        todo, order := todo - {key}, order + [key];
        EvaluateEntry(net, key, entries[key]);
      }
    }

    method EvaluateSri(net: Net, cfg: Config, entries: map<string, string>)
      returns (ghost order: seq<string>, ghost pkgs: seq<string>)
      modifies this`diagnosis
      ensures (forall u :: u in order <==> u in entries) && (forall p :: p in pkgs <==> p in activeRefs)
      ensures |order| == |entries| && |pkgs| == |activeRefs|
      ensures diagnosis == MissingFold(SriFold(net, cfg, old(diagnosis), entries, order), entries, activeRefs, pkgs)
    {
      order, pkgs := [], [];
      var todo := entries.Keys;
      while todo != {}
        invariant todo <= entries.Keys && forall u :: u in order <==> u in entries && u !in todo
        invariant |order| + |todo| == |entries|
        invariant diagnosis == SriFold(net, cfg, old(diagnosis), entries, order)
        decreases |todo|
      {
        var url :| url in todo;
        assert (order + [url])[..|order|] == order;
        todo, order := todo - {url}, order + [url];
        if !HasPrefix(url, "https://") { continue; }
        var host := net.urlHost(url);
        if host.None? { diagnosis := diagnosis.(other := diagnosis.other + [BadUrl(url)]); continue; }
        if !HostAllowed(Lower(host.value), cfg.hosts) {
          diagnosis := diagnosis.(other := diagnosis.other + [HostBlocked(host.value)]);
          continue;
        }
        var body := net.fetch(url);
        if body.None? { diagnosis := diagnosis.(other := diagnosis.other + [FetchFail(url)]); continue; }
        if net.digest(body.value) != entries[url] { diagnosis := diagnosis.(mismatch := diagnosis.mismatch + [url]); }
      }
      ghost var mid := diagnosis;
      var left := activeRefs.Keys;
      while left != {}
        invariant left <= activeRefs.Keys && forall p :: p in pkgs <==> p in activeRefs && p !in left
        invariant |pkgs| + |left| == |activeRefs|
        invariant diagnosis == MissingFold(mid, entries, activeRefs, pkgs)
        decreases |left|
      {
        var p :| p in left;
        assert (pkgs + [p])[..|pkgs|] == pkgs;
        left, pkgs := left - {p}, pkgs + [p];
        if activeRefs[p].url !in entries {
          diagnosis := diagnosis.(other := diagnosis.other + [MissingEntry(activeRefs[p].url)]);
        }
      }
    }
  }

  // ---------- One pass ----------

  /** What a pass finds around it: the scan roots, the network and the data files' readability. */
  datatype World = World(roots: seq<Root>, cancelAt: nat, net: Net,
                         cdnFound: bool, sriFound: bool, cdnRead: bool, sriRead: bool,
                         parse: string -> Option<map<string, CdnEntry>>)

  function CdnEntries(w: World, cdn: string): map<string, CdnEntry> {
    if w.cdnFound && w.cdnRead && w.parse(cdn).Some? then w.parse(cdn).value else map[]
  }

  function SriEntries(w: World, sri: SriDoc): map<string, string> {
    if w.sriFound && w.sriRead && sri.Doc? then sri.entries else map[]
  }

  /** A file that is not found, cannot be read or does not parse counts as an empty one. */
  lemma EntriesOrNone(w: World, cdn: string, sri: SriDoc)
    ensures !w.cdnFound || !w.cdnRead || w.parse(cdn).None? ==> |CdnEntries(w, cdn)| == 0
    ensures !w.sriFound || !w.sriRead || sri.Garbled? ==> |SriEntries(w, sri)| == 0
    ensures w.cdnFound && w.cdnRead && w.parse(cdn).Some? ==> w.parse(cdn) == Some(CdnEntries(w, cdn))
    ensures w.sriFound && w.sriRead && sri.Doc? ==> sri == Doc(SriEntries(w, sri))
  {
  }

  function Retained(w: World, cfg: Config): map<string, ActiveRef> {
    ScanRoots(cfg, NOTHING, Reached(w.roots, w.cancelAt)).refs
  }

  /** The scan was complete and both data files that were found could be read. */
  ghost predicate InputsFine(w: World, cfg: Config, cdn: string, sri: SriDoc, first: bool) {
    && w.cancelAt >= |w.roots| && QuietSite(cfg, w.roots)
    && (first ==> w.cdnFound && w.sriFound)
    && (w.cdnFound ==> w.cdnRead && w.parse(cdn).Some?)
    && (w.sriFound ==> w.sriRead && sri.Doc?)
  }

  /** Active entries are known and not a major version behind, digests are live, references have digests. */
  ghost predicate AllFine(net: Net, cfg: Config, refs: map<string, ActiveRef>, entries: map<string, CdnEntry>,
      hashes: map<string, string>)
  {
    && (forall k :: k in entries ==> VersionFine(net, refs, entries[k]))
    && (forall u :: u in hashes ==> HashFine(net, cfg, u, hashes[u]))
    && (forall p :: p in refs ==> refs[p].url in hashes)
  }

  /** The same but for stale digests and major versions behind. */
  ghost predicate AllKnown(net: Net, cfg: Config, refs: map<string, ActiveRef>, entries: map<string, CdnEntry>,
      hashes: map<string, string>)
  {
    && (forall k :: k in entries ==> !StandingOf(net, refs, entries[k]).Unknown?)
    && (forall u :: u in hashes ==> Reachable(net, cfg, u))
    && (forall p :: p in refs ==> refs[p].url in hashes)
  }

  /** Nothing at all to report. */
  ghost predicate Healthy(w: World, cfg: Config, cdn: string, sri: SriDoc, first: bool) {
    && InputsFine(w, cfg, cdn, sri, first)
    && AllFine(w.net, cfg, Retained(w, cfg), CdnEntries(w, cdn), SriEntries(w, sri))
  }

  /** Nothing to report but stale digests and versions behind. */
  ghost predicate Quiet(w: World, cfg: Config, cdn: string, sri: SriDoc, first: bool) {
    && InputsFine(w, cfg, cdn, sri, first)
    && AllKnown(w.net, cfg, Retained(w, cfg), CdnEntries(w, cdn), SriEntries(w, sri))
  }

  /** The notes a pass makes about its inputs, before it evaluates anything. */
  function InputNotes(w: World, cdn: string, sri: SriDoc, first: bool): seq<Warning> {
    (if first && !w.cdnFound then [NoDataFile("cdn")] else [])
    + (if first && !w.sriFound then [NoDataFile("sri")] else [])
    + (if w.cdnFound && !(w.cdnRead && w.parse(cdn).Some?) then [BadDataFile("cdn")] else [])
    + (if w.sriFound && !(w.sriRead && sri.Doc?) then [BadDataFile("sri")] else [])
  }

  lemma NotesMeaning(w: World, cdn: string, sri: SriDoc, first: bool)
    ensures InputNotes(w, cdn, sri, first) == [] <==>
              && (first ==> w.cdnFound && w.sriFound)
              && (w.cdnFound ==> w.cdnRead && w.parse(cdn).Some?)
              && (w.sriFound ==> w.sriRead && sri.Doc?)
  {
  }

  /** A data file is not found, which only the first pass looks for, or found and cannot be read. */
  predicate InputNoted(w: World, cdn: string, sri: SriDoc, first: bool, x: Warning) {
    || (first && !w.cdnFound && x == NoDataFile("cdn"))
    || (first && !w.sriFound && x == NoDataFile("sri"))
    || (w.cdnFound && (!w.cdnRead || w.parse(cdn).None?) && x == BadDataFile("cdn"))
    || (w.sriFound && (!w.sriRead || sri.Garbled?) && x == BadDataFile("sri"))
  }

  lemma NotesExactly(w: World, cdn: string, sri: SriDoc, first: bool, x: Warning)
    ensures x in InputNotes(w, cdn, sri, first) <==> InputNoted(w, cdn, sri, first, x)
  {
  }

  /** The three loops of a pass, in whatever order they walk their maps. */
  ghost function Concluded(net: Net, cfg: Config, refs: map<string, ActiveRef>, d: Diagnosis,
                           entries: map<string, CdnEntry>, hashes: map<string, string>,
                           order: seq<string>, urls: seq<string>, pkgs: seq<string>): Diagnosis
    requires (forall k :: k in order ==> k in entries) && (forall u :: u in urls ==> u in hashes)
    requires forall p :: p in pkgs ==> p in refs
  {
    MissingFold(SriFold(net, cfg, VersionFold(net, refs, d, entries, order), hashes, urls), hashes, refs, pkgs)
  }

  lemma ConcludedMeaning(net: Net, cfg: Config, refs: map<string, ActiveRef>, d: Diagnosis,
                         entries: map<string, CdnEntry>, hashes: map<string, string>,
                         order: seq<string>, urls: seq<string>, pkgs: seq<string>)
    requires (forall k :: k in order <==> k in entries) && (forall u :: u in urls <==> u in hashes)
    requires forall p :: p in pkgs <==> p in refs
    ensures var r := Concluded(net, cfg, refs, d, entries, hashes, order, urls, pkgs);
      && (Clean(r) <==> Clean(d) && AllFine(net, cfg, refs, entries, hashes))
      && (r.other == [] <==> d.other == [] && AllKnown(net, cfg, refs, entries, hashes))
      && r.candidates == VersionFold(net, refs, d, entries, order).candidates
  {
    var d1 := VersionFold(net, refs, d, entries, order);
    VersionFoldMeaning(net, refs, d, entries, order);
    SriFoldMeaning(net, cfg, d1, hashes, urls);
    MissingFoldMeaning(SriFold(net, cfg, d1, hashes, urls), hashes, refs, pkgs);
  }

  lemma CandidatesMeaning(net: Net, refs: map<string, ActiveRef>, d: Diagnosis, entries: map<string, CdnEntry>,
      order: seq<string>)
    requires (forall k :: k in order <==> k in entries) && d.candidates == []
    ensures forall c :: c in VersionFold(net, refs, d, entries, order).candidates <==>
              c.key in entries && IsFixOf(net, refs, entries, c.key, c)
  {
    forall c ensures c in VersionFold(net, refs, d, entries, order).candidates <==>
                       c.key in entries && IsFixOf(net, refs, entries, c.key, c) {
      CandidatesExact(net, refs, d, entries, order, c);
    }
  }

  /** The candidates are exactly the fixable entries. */
  ghost predicate FixesAre(cands: seq<Candidate>, w: World, cfg: Config, cdn: string) {
    forall c :: c in cands <==>
      c.key in CdnEntries(w, cdn) && IsFixOf(w.net, Retained(w, cfg), CdnEntries(w, cdn), c.key, c)
  }

  /** Candidates with proper names fit together: one target per package, always another version. */
  lemma EvaluatedFit(cands: seq<Candidate>, w: World, cfg: Config, cdn: string)
    requires FixesAre(cands, w, cfg, cdn)
    requires forall c :: c in cands ==> ProperNames(c)
    ensures CandidatesFit(cands)
  {
    forall c | c in cands ensures c.was != c.next && w.net.latest(c.pkg) == Some(c.next) {
      CandidateGoesUp(w.net, Retained(w, cfg), CdnEntries(w, cdn), c.key, c);
    }
  }

  /** The notes of the scan, and of its being cancelled. */
  ghost predicate ScanNoted(w: World, cfg: Config, x: Warning) {
    Noted(cfg, Reached(w.roots, w.cancelAt), x) || (w.cancelAt < |w.roots| && x == Cancelled)
  }

  /** An https entry is reachable and stores another digest than that of what is served there. */
  predicate IsMismatch(w: World, cfg: Config, sri: SriDoc, url: string) {
    url in SriEntries(w, sri) && IsStale(w.net, cfg, url, SriEntries(w, sri)[url])
  }

  /** Some entry for the package, which is active, is a major version behind. */
  ghost predicate IsMajor(w: World, cfg: Config, cdn: string, pkg: string) {
    exists k :: k in CdnEntries(w, cdn) && CdnEntries(w, cdn)[k].pkg == pkg
      && IsBehind(w.net, Retained(w, cfg), CdnEntries(w, cdn)[k])
  }

  /** The registry does not know an active package, an entry cannot be compared, or a retained url has none. */
  ghost predicate EntryNoted(w: World, cfg: Config, cdn: string, sri: SriDoc, x: Warning) {
    var entries, hashes, refs := CdnEntries(w, cdn), SriEntries(w, sri), Retained(w, cfg);
    || (exists k :: k in entries && IsUnknown(w.net, refs, entries[k]) && x == ApiFail(entries[k].pkg))
    || (exists u :: u in hashes && NotedUrl(w.net, cfg, u, x))
    || (exists p :: p in refs && refs[p].url !in hashes && x == MissingEntry(refs[p].url))
  }

  ghost predicate IsOther(w: World, cfg: Config, cdn: string, sri: SriDoc, first: bool, x: Warning) {
    ScanNoted(w, cfg, x) || InputNoted(w, cdn, sri, first, x) || EntryNoted(w, cfg, cdn, sri, x)
  }

  /** The lists hold exactly what a pass finds. */
  ghost predicate Lists(mismatch: seq<string>, major: seq<string>, other: seq<Warning>,
                        w: World, cfg: Config, cdn: string, sri: SriDoc, first: bool) {
    && (forall u :: u in mismatch <==> IsMismatch(w, cfg, sri, u))
    && (forall p :: p in major <==> IsMajor(w, cfg, cdn, p))
    && (forall x :: x in other <==> IsOther(w, cfg, cdn, sri, first, x))
  }

  /** The diagnosis with which the evaluation begins. */
  ghost function Begun(w: World, cfg: Config, cdn: string, sri: SriDoc, first: bool): Diagnosis {
    BLANK.(other := ScanRoots(cfg, NOTHING, Reached(w.roots, w.cancelAt)).warnings
                    + (if w.cancelAt < |w.roots| then [Cancelled] else []) + InputNotes(w, cdn, sri, first))
  }

  ghost predicate Orders(w: World, cfg: Config, cdn: string, sri: SriDoc,
                         order: seq<string>, urls: seq<string>, pkgs: seq<string>) {
    && (forall k :: k in order <==> k in CdnEntries(w, cdn)) && (forall u :: u in urls <==> u in SriEntries(w, sri))
    && (forall p :: p in pkgs <==> p in Retained(w, cfg))
  }

  /** What a pass finds. */
  ghost function Found(w: World, cfg: Config, cdn: string, sri: SriDoc, first: bool,
                       order: seq<string>, urls: seq<string>, pkgs: seq<string>): Diagnosis
    requires Orders(w, cfg, cdn, sri, order, urls, pkgs)
  {
    Concluded(w.net, cfg, Retained(w, cfg), Begun(w, cfg, cdn, sri, first), CdnEntries(w, cdn), SriEntries(w, sri),
              order, urls, pkgs)
  }

  lemma PassMeaning(w: World, cfg: Config, cdn: string, sri: SriDoc, first: bool,
                    order: seq<string>, urls: seq<string>, pkgs: seq<string>)
    requires Orders(w, cfg, cdn, sri, order, urls, pkgs)
    ensures var d := Found(w, cfg, cdn, sri, first, order, urls, pkgs);
      && (Clean(d) <==> Healthy(w, cfg, cdn, sri, first)) && (d.other == [] <==> Quiet(w, cfg, cdn, sri, first))
      && FixesAre(d.candidates, w, cfg, cdn)
  {
    var d0 := Begun(w, cfg, cdn, sri, first);
    NotesMeaning(w, cdn, sri, first);
    QuietExactly(cfg, w.roots);
    ConcludedMeaning(w.net, cfg, Retained(w, cfg), d0, CdnEntries(w, cdn), SriEntries(w, sri), order, urls, pkgs);
    CandidatesMeaning(w.net, Retained(w, cfg), d0, CdnEntries(w, cdn), order);
  }

  lemma BegunMeaning(w: World, cfg: Config, cdn: string, sri: SriDoc, first: bool, x: Warning)
    ensures x in Begun(w, cfg, cdn, sri, first).other <==>
              ScanNoted(w, cfg, x) || InputNoted(w, cdn, sri, first, x)
  {
    NotedExactly(cfg, Reached(w.roots, w.cancelAt), x);
    NotesExactly(w, cdn, sri, first, x);
  }

  lemma ConcludedLists(w: World, cfg: Config, cdn: string, sri: SriDoc, d: Diagnosis,
                       order: seq<string>, urls: seq<string>, pkgs: seq<string>)
    requires Orders(w, cfg, cdn, sri, order, urls, pkgs) && d.mismatch == [] && d.major == []
    ensures var r := Concluded(w.net, cfg, Retained(w, cfg), d, CdnEntries(w, cdn), SriEntries(w, sri),
                               order, urls, pkgs);
      && (forall u :: u in r.mismatch <==> IsMismatch(w, cfg, sri, u))
      && (forall p :: p in r.major <==> IsMajor(w, cfg, cdn, p))
      && (forall x :: x in r.other <==> x in d.other || EntryNoted(w, cfg, cdn, sri, x))
  {
    var refs := Retained(w, cfg);
    var d1 := VersionFold(w.net, refs, d, CdnEntries(w, cdn), order);
    VersionFoldLists(w.net, refs, d, CdnEntries(w, cdn), order);
    SriFoldLists(w.net, cfg, d1, SriEntries(w, sri), urls);
    MissingFoldLists(SriFold(w.net, cfg, d1, SriEntries(w, sri), urls), SriEntries(w, sri), refs, pkgs);
  }

  lemma PassLists(w: World, cfg: Config, cdn: string, sri: SriDoc, first: bool,
                  order: seq<string>, urls: seq<string>, pkgs: seq<string>)
    requires Orders(w, cfg, cdn, sri, order, urls, pkgs)
    ensures var d := Found(w, cfg, cdn, sri, first, order, urls, pkgs);
      Lists(d.mismatch, d.major, d.other, w, cfg, cdn, sri, first)
  {
    ConcludedLists(w, cfg, cdn, sri, Begun(w, cfg, cdn, sri, first), order, urls, pkgs);
    forall x ensures x in Begun(w, cfg, cdn, sri, first).other <==>
                       ScanNoted(w, cfg, x) || InputNoted(w, cdn, sri, first, x) {
      BegunMeaning(w, cfg, cdn, sri, first, x);
    }
  }

  /** One pass over the site and the data files. */
  method Diagnose(w: World, cfg: Config, cdn: string, sri: SriDoc, first: bool) returns (d: Diagnosis)
    ensures Clean(d) <==> Healthy(w, cfg, cdn, sri, first)
    ensures d.other == [] <==> Quiet(w, cfg, cdn, sri, first)
    ensures FixesAre(d.candidates, w, cfg, cdn)
    ensures Lists(d.mismatch, d.major, d.other, w, cfg, cdn, sri, first)
  {
    var state := new RunState();
    var warnings := state.ScanAll(cfg, w.roots, w.cancelAt);
    var cdnEntries, sriEntries := CdnEntries(w, cdn), SriEntries(w, sri);
    state.diagnosis := BLANK.(other := warnings + InputNotes(w, cdn, sri, first));
    ghost var order: seq<string> := [];
    if |cdnEntries| > 0 { order := state.EvaluateVersions(w.net, cdnEntries); }
    ghost var urls, pkgs := state.EvaluateSri(w.net, cfg, sriEntries);
    PassMeaning(w, cfg, cdn, sri, first, order, urls, pkgs);
    PassLists(w, cfg, cdn, sri, first, order, urls, pkgs);
    d := state.diagnosis;
  }

  // ---------- The verdict ----------

  datatype Summary = DISABLED | OK | WARN

  datatype Report = Report(summary: Summary, exit: nat, success: bool, mismatch: seq<string>, major: seq<string>,
      other: seq<Warning>)

  method Finalize(mismatch: seq<string>, major: seq<string>, other: seq<Warning>) returns (r: Report)
    ensures r.mismatch == mismatch && r.major == major && r.other == other
    ensures r.summary == OK <==> mismatch == [] && major == [] && other == []
    ensures r.summary != DISABLED && r.success == (r.summary == OK) && r.exit == (if r.summary == OK then 0 else 1)
  {
    if |mismatch| > 0 || |major| > 0 || |other| > 0 {
      r := Report(WARN, 1, false, mismatch, major, other);
    } else {
      r := Report(OK, 0, true, mismatch, major, other);
    }
  }

  /** The names in the candidates and the hash file leave no doubt what is meant. */
  ghost predicate Unambiguous(cands: seq<Candidate>, hashes: map<string, string>) {
    && CandidatesFit(cands) && WellNamed(hashes)
    && NoneConfused(cands, hashes) && NoneConfusedLater(cands, hashes)
  }

  lemma WalkIsRight(net: Net, cands: seq<Candidate>, hashes: map<string, string>, moves: seq<Move>)
    requires Unambiguous(cands, hashes) && IsWalk(cands, hashes, moves)
    ensures RightlyFixed(net, cands, hashes, ApplyMoves(net, hashes, moves))
  {
    forall m ensures m in moves <==> IsMove(cands, hashes, m) { WalkMoves(cands, hashes, moves, m); }
    FixedHashes(net, cands, hashes, moves);
  }

  /** The fix on the entries the first pass has read. */
  method Attempt(disk: Disk, w: World, cands: seq<Candidate>, f: Faults)
    returns (fixed: bool, warnings: seq<Warning>, ghost moves: seq<Move>)
    requires cands != [] && w.sriFound
    modifies disk
    ensures var hashes := SriEntries(w, old(disk.sri));
      && (Drafted(w.net, cands, hashes, old(disk.sri), f) ==> IsWalk(cands, hashes, moves))
      && Outcome(fixed, disk.cdn, disk.sri) ==
           OutcomeOf(Drafted(w.net, cands, hashes, old(disk.sri), f), f, old(disk.cdn), old(disk.sri),
                     RewriteAll(old(disk.cdn), cands),
                     if old(disk.sri).Doc? then Doc(ApplyMoves(w.net, old(disk.sri).entries, moves)) else Garbled)
    ensures fixed && w.sriRead && Unambiguous(cands, SriEntries(w, old(disk.sri))) ==>
              disk.sri.Doc? && RightlyFixed(w.net, cands, SriEntries(w, old(disk.sri)), disk.sri.entries)
    ensures fixed <==> warnings == []
    ensures forall x :: x in warnings <==>
              FixNoted(Drafted(w.net, cands, SriEntries(w, old(disk.sri)), old(disk.sri), f), f, old(disk.sri), x)
  {
    ghost var hashes := SriEntries(w, disk.sri);
    fixed, warnings, moves := ApplyAutoFix(disk, w.net, cands, SriEntries(w, disk.sri), f);
    if fixed && w.sriRead && Unambiguous(cands, hashes) { WalkIsRight(w.net, cands, hashes, moves); }
  }

  /**
   * `before` is what the first pass finds, `after` what the pass that follows an attempted fix finds; `gone` says
   * that the request was cancelled before the call, which even a disabled auditor notices, and `late` that it was
   * cancelled during the first pass but after its scan. Without an attempt the verdict is OK exactly if the site is
   * healthy. With one it is OK exactly if the fix succeeded, the first pass had nothing else to report, and the site
   * is healthy afterwards. If the names are unambiguous a successful fix is a right one.
   */
  method Check(gone: bool, cfg: Config, enabled: bool, autoFix: bool, dryRun: bool, before: World, late: bool,
               after: World, disk: Disk, f: Faults)
    returns (res: Option<Report>, attempted: bool, fixed: bool, ghost cands: seq<Candidate>, ghost moves: seq<Move>)
    requires after.cdnFound == before.cdnFound && after.sriFound == before.sriFound
    modifies disk
    ensures res.None? <==> gone || (enabled && (late || before.cancelAt < |before.roots|))
    ensures res.None? ==> !attempted
    ensures !enabled && res.Some? ==>
              res.value.summary == DISABLED && res.value.exit == 2 && !res.value.success && !attempted
    ensures enabled && res.Some? ==>
              var r := res.value;
              r.summary != DISABLED && (r.success <==> r.summary == OK) && (r.exit == 0 <==> r.summary == OK)
    ensures res.Some? ==>
              (attempted <==> enabled && autoFix && !dryRun && before.cdnFound && before.sriFound && cands != [])
    ensures enabled && res.Some? ==> FixesAre(cands, before, cfg, old(disk.cdn))
    ensures attempted ==>
              var hashes := SriEntries(before, old(disk.sri));
              && (Drafted(before.net, cands, hashes, old(disk.sri), f) ==> IsWalk(cands, hashes, moves))
              && Outcome(fixed, disk.cdn, disk.sri) ==
                   OutcomeOf(Drafted(before.net, cands, hashes, old(disk.sri), f), f, old(disk.cdn), old(disk.sri),
                             RewriteAll(old(disk.cdn), cands),
                             if old(disk.sri).Doc? then Doc(ApplyMoves(before.net, old(disk.sri).entries, moves))
                             else Garbled)
    ensures attempted && fixed && before.sriRead && Unambiguous(cands, SriEntries(before, old(disk.sri))) ==>
              disk.sri.Doc? && RightlyFixed(before.net, cands, SriEntries(before, old(disk.sri)), disk.sri.entries)
    ensures !attempted ==> disk.cdn == old(disk.cdn) && disk.sri == old(disk.sri)
    ensures enabled && res.Some? && !attempted ==>
              (res.value.summary == OK <==> Healthy(before, cfg, disk.cdn, disk.sri, true))
    ensures enabled && attempted ==>
              (res.value.summary == OK <==>
                && fixed && Quiet(before, cfg, old(disk.cdn), old(disk.sri), true)
                && Healthy(after, cfg, disk.cdn, disk.sri, false))
    ensures enabled && res.Some? && !attempted ==>
              Lists(res.value.mismatch, res.value.major, res.value.other, before, cfg, disk.cdn, disk.sri, true)
    ensures attempted ==>
              var r, hashes := res.value, SriEntries(before, old(disk.sri));
              && (forall u :: u in r.mismatch <==> IsMismatch(after, cfg, disk.sri, u))
              && (forall p :: p in r.major <==> IsMajor(after, cfg, disk.cdn, p))
              && (forall x :: x in r.other <==>
                    || IsOther(before, cfg, old(disk.cdn), old(disk.sri), true, x)
                    || FixNoted(Drafted(before.net, cands, hashes, old(disk.sri), f), f, old(disk.sri), x)
                    || IsOther(after, cfg, disk.cdn, disk.sri, false, x))
  {
    attempted, fixed, cands, moves := false, false, [], [];
    if gone { return None, false, false, [], []; }
    if !enabled { return Some(Report(DISABLED, 2, false, [], [], [])), false, false, [], []; }
    var d := Diagnose(before, cfg, disk.cdn, disk.sri, true);
    if late || before.cancelAt < |before.roots| { return None, false, false, [], []; }
    cands := d.candidates;
    var mismatch, major, other := d.mismatch, d.major, d.other;
    if autoFix && !dryRun && |d.candidates| > 0 && before.cdnFound && before.sriFound {
      attempted := true;
      var warnings;
      fixed, warnings, moves := Attempt(disk, before, d.candidates, f);
      other := other + warnings;
      var post := Diagnose(after, cfg, disk.cdn, disk.sri, false);
      if |post.mismatch| > 0 || |post.major| > 0 || |post.other| > 0 {
        mismatch, major, other := post.mismatch, post.major, other + post.other;
      } else {
        mismatch, major := [], [];
      }
    }
    var r := Finalize(mismatch, major, other);
    res := Some(r);
  }

  // ---------- What OK vouches for ----------

  /** Two references of fully scanned files to one package have one version. */
  lemma OneVersionPerPackage(cfg: Config, s: Scan, f: File, g: File, r: Ref, q: Ref)
    requires FullyScanned(cfg, s, f) && FullyScanned(cfg, s, g) && f.textLike && g.textLike
    requires r in f.content.refs && q in g.content.refs && r.pkg == q.pkg
    ensures r.version == q.version && HostAllowed(Lower(r.host), cfg.hosts)
  {
    assert Settled(cfg, s, r) && Settled(cfg, s, q);
  }

  /**
   * The verdict OK is sound: the roots that exist were walked to the end and their text files fully scanned
   * (so hosts are allowed and packages have one version); each retained reference stores the digest of what
   * is served at its url; and no active package is unknown to the registry or a major version behind.
   */
  lemma OkIsSound(w: World, cfg: Config, cdn: string, sri: SriDoc, first: bool)
    requires Healthy(w, cfg, cdn, sri, first) && OneTree(Tree(w.roots))
    ensures forall r :: r in w.roots ==> RootCovered(cfg, ScanRoots(cfg, NOTHING, w.roots), r)
    ensures forall p :: p in Retained(w, cfg) ==>
              var url := Retained(w, cfg)[p].url;
              && w.net.fetch(url).Some? && url in SriEntries(w, sri)
              && SriEntries(w, sri)[url] == w.net.digest(w.net.fetch(url).value)
    ensures forall k :: k in CdnEntries(w, cdn) && CdnEntries(w, cdn)[k].pkg in Retained(w, cfg) ==>
              var s := StandingOf(w.net, Retained(w, cfg), CdnEntries(w, cdn)[k]); s.Current? || s.Fixable?
  {
    QuietExactly(cfg, w.roots);
    QuietScan(cfg, w.roots);
    RetainedSound(cfg, w.roots);
    forall p | p in Retained(w, cfg)
      ensures HashFine(w.net, cfg, Retained(w, cfg)[p].url, SriEntries(w, sri)[Retained(w, cfg)[p].url]) {}
    forall k | k in CdnEntries(w, cdn) ensures VersionFine(w.net, Retained(w, cfg), CdnEntries(w, cdn)[k]) {}
  }
}
