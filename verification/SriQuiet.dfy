/** When a scan of the site has nothing to report. */
module SriQuiet {
  import opened Wrappers
  import opened Text
  import opened SriScan
  import opened SriNotes

  /** The file has a name below the site; if it is a text file opened it is readable and small enough. */
  predicate FileFine(cfg: Config, seen: set<string>, files: seq<File>, k: nat) {
    k < |files| ==>
      && files[k].rel.Some?
      && (Opened(cfg, seen, files, k) && files[k].textLike ==> TextFine(cfg, files[k].content))
  }

  predicate TextFine(cfg: Config, c: Content) {
    c.Data? && c.size <= cfg.maxFileBytes
  }

  /** An empty name or a missing directory is skipped; one that is there is walked to its end, within the limit. */
  ghost predicate RootFine(cfg: Config, seen: set<string>, r: Root) {
    match r
    case Blank => true
    case Missing => true
    case Dir(files, broken) =>
      !broken && AllVisited(cfg, seen, files) && forall k: nat :: FileFine(cfg, seen, files, k)
    case _ => false
  }

  ghost predicate RootFineAt(cfg: Config, roots: seq<Root>, i: nat) {
    i < |roots| ==> RootFine(cfg, SeenIn(cfg, roots[..i]), roots[i])
  }

  /** Some text file opened has the reference. */
  ghost predicate IsRead(cfg: Config, roots: seq<Root>, g: Sighting) {
    exists i: nat, k: nat :: ReadIn(cfg, roots, i, k, g)
  }

  /** References name configured hosts, and a package always the same version. */
  ghost predicate RefsFine(cfg: Config, roots: seq<Root>) {
    && (forall g :: IsRead(cfg, roots, g) ==> HostFine(cfg, g.ref.host))
    && (forall g, h :: IsRead(cfg, roots, g) && IsRead(cfg, roots, h) && g.ref.pkg == h.ref.pkg ==>
          g.ref.version == h.ref.version)
  }

  ghost predicate QuietSite(cfg: Config, roots: seq<Root>) {
    (forall i: nat :: RootFineAt(cfg, roots, i)) && RefsFine(cfg, roots)
  }

  // ---------- Roots and files ----------

  lemma FileNotes(cfg: Config, seen: set<string>, files: seq<File>, k: nat)
    requires AllVisited(cfg, seen, files)
    ensures FileFine(cfg, seen, files, k) <==> forall x :: !FileNoted(cfg, seen, files, k, x)
  {
    if k < |files| {
      LimitLasts(cfg, seen, files, k, |files| - 1);
      if !FileFine(cfg, seen, files, k) {
        if files[k].rel.None? {
          assert FileNoted(cfg, seen, files, k, BadRel);
        } else if files[k].content.Unreadable? {
          assert FileNoted(cfg, seen, files, k, ReadFail(files[k].rel.value));
        } else {
          assert FileNoted(cfg, seen, files, k, FileTooLarge(files[k].rel.value));
        }
      }
    }
  }

  lemma FilesFine(cfg: Config, seen: set<string>, files: seq<File>)
    ensures AllVisited(cfg, seen, files) && (forall k: nat :: FileFine(cfg, seen, files, k)) <==>
              forall x :: !FilesNoted(cfg, seen, files, x)
  {
    if !AllVisited(cfg, seen, files) {
      assert FileNoted(cfg, seen, files, |files| - 1, FileLimit);
      assert FilesNoted(cfg, seen, files, FileLimit);
    } else if x :| FilesNoted(cfg, seen, files, x) {
      var k: nat :| FileNoted(cfg, seen, files, k, x);
      FileNotes(cfg, seen, files, k);
    } else {
      forall k: nat ensures FileFine(cfg, seen, files, k) {
        FileNotes(cfg, seen, files, k);
        forall x ensures !FileNoted(cfg, seen, files, k, x) { assert !FilesNoted(cfg, seen, files, x); }
      }
    }
  }

  lemma RootQuiet(cfg: Config, seen: set<string>, i: nat, r: Root)
    ensures RootFine(cfg, seen, r) <==> forall x :: !RootNotes(cfg, seen, i, r, x)
  {
    if r.Dir? {
      FilesFine(cfg, seen, r.files);
      if forall x :: !RootNotes(cfg, seen, i, r, x) {
        assert !RootNotes(cfg, seen, i, r, WalkFail(i));
        forall x ensures !FilesNoted(cfg, seen, r.files, x) { assert !RootNotes(cfg, seen, i, r, x); }
      }
    } else {
      assert !RootFine(cfg, seen, r) ==> RootNotes(cfg, seen, i, r, BadRoot(i));
    }
  }

  lemma RootsFine(cfg: Config, roots: seq<Root>)
    ensures (forall i: nat :: RootFineAt(cfg, roots, i)) <==> forall x :: !AnyNoted(cfg, roots, x)
  {
    if x :| AnyNoted(cfg, roots, x) {
      var i: nat :| RootNoted(cfg, roots, i, x);
      RootQuiet(cfg, SeenIn(cfg, roots[..i]), i, roots[i]);
      assert !RootFineAt(cfg, roots, i);
    } else {
      forall i: nat ensures RootFineAt(cfg, roots, i) {
        if i < |roots| {
          RootQuiet(cfg, SeenIn(cfg, roots[..i]), i, roots[i]);
          forall x ensures !RootNotes(cfg, SeenIn(cfg, roots[..i]), i, roots[i], x) {
            assert !AnyNoted(cfg, roots, x) && (RootNoted(cfg, roots, i, x) ==> AnyNoted(cfg, roots, x));
          }
        }
      }
    }
  }

  /** The notes about roots and files are none of those about references. */
  lemma RootNotesElse(cfg: Config, roots: seq<Root>, x: Warning)
    requires AnyNoted(cfg, roots, x)
    ensures !OfRefs(x)
  {
    var i: nat :| RootNoted(cfg, roots, i, x);
    if roots[i].Dir? && FilesNoted(cfg, SeenIn(cfg, roots[..i]), roots[i].files, x) {
      FilesNoteElse(cfg, SeenIn(cfg, roots[..i]), roots[i].files, x);
    }
  }

  lemma FilesNoteElse(cfg: Config, seen: set<string>, files: seq<File>, x: Warning)
    requires FilesNoted(cfg, seen, files, x)
    ensures !OfRefs(x)
  {
    var k: nat :| FileNoted(cfg, seen, files, k, x);
  }

  // ---------- References ----------

  ghost predicate ReadsFine(cfg: Config, read: seq<Sighting>) {
    && (forall g :: g in read ==> HostFine(cfg, g.ref.host))
    && (forall g, h :: g in read && h in read && g.ref.pkg == h.ref.pkg ==> g.ref.version == h.ref.version)
  }

  /** Some reference to a package comes first. */
  lemma {:induction false} HasFirst(cfg: Config, read: seq<Sighting>, m: nat, pkg: string) returns (f: nat)
    requires m < |read| && About(cfg, read[m], pkg)
    ensures f <= m && IsFirst(cfg, read, f, pkg)
  {
    if j :| 0 <= j < m && About(cfg, read[j], pkg) {
      f := HasFirst(cfg, read, j, pkg);
    } else {
      f := m;
    }
  }

  lemma ReadsQuiet(cfg: Config, read: seq<Sighting>)
    ensures ReadsFine(cfg, read) <==> forall x :: !RefNoted(cfg, read, x)
  {
    if forall x :: !RefNoted(cfg, read, x) {
      forall g | g in read ensures HostFine(cfg, g.ref.host) {
        if !HostFine(cfg, g.ref.host) { assert IsBlocked(cfg, g, Lower(g.ref.host)); }
        assert !RefNoted(cfg, read, HostBlocked(Lower(g.ref.host)));
      }
      forall g, h | g in read && h in read && g.ref.pkg == h.ref.pkg ensures g.ref.version == h.ref.version {
        var m: nat :| m < |read| && read[m] == g;
        var n: nat :| n < |read| && read[n] == h;
        var f := HasFirst(cfg, read, m, g.ref.pkg);
        assert Decides(cfg, read, g.ref.pkg, read[f].ref.version);
        assert !RefNoted(cfg, read, Conflict(g.ref.pkg, read[f].ref.version, g.ref.version));
        assert !RefNoted(cfg, read, Conflict(g.ref.pkg, read[f].ref.version, h.ref.version));
      }
    }
  }

  /**
   * A scan has nothing to report, exactly if each root is skipped, or there and walked to its end within the file
   * limit; each text file opened is readable and small enough; every reference names a configured host; and no package
   * is referenced at two versions.
   */
  lemma QuietExactly(cfg: Config, roots: seq<Root>)
    ensures ScanRoots(cfg, NOTHING, roots).warnings == [] <==> QuietSite(cfg, roots)
  {
    var warnings := ScanRoots(cfg, NOTHING, roots).warnings;
    RootsFine(cfg, roots);
    ReadsQuiet(cfg, AllRead(cfg, roots));
    forall g ensures g in AllRead(cfg, roots) <==> IsRead(cfg, roots, g) { ReadExactly(cfg, roots, g); }
    assert RefsFine(cfg, roots) <==> ReadsFine(cfg, AllRead(cfg, roots));
    forall x ensures x in warnings <==> AnyNoted(cfg, roots, x) || RefNoted(cfg, AllRead(cfg, roots), x) {
      NotedExactly(cfg, roots, x);
      if AnyNoted(cfg, roots, x) { RootNotesElse(cfg, roots, x); }
    }
    if warnings != [] { assert warnings[0] in warnings; }
  }

  /** A missing or unnamed root makes no difference to what a site needs to be quiet. */
  lemma MissingSkipped(cfg: Config, roots: seq<Root>, r: Root)
    requires r.Missing? || r.Blank?
    ensures QuietSite(cfg, roots + [r]) <==> QuietSite(cfg, roots)
  {
    QuietExactly(cfg, roots);
    QuietExactly(cfg, roots + [r]);
    assert (roots + [r])[..|roots|] == roots;
  }
}
