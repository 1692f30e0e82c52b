/** What the auditor concludes from the scan, the two data files and the network. */
module SriEvaluate {
  import opened Wrappers
  import opened Text
  import opened Versions
  import opened SriScan
  import opened SriNotes

  datatype CdnEntry = CdnEntry(key: string, pkg: string, version: string, path: string)

  datatype Candidate = Candidate(key: string, pkg: string, was: string, next: string)

  /** The registry's latest version, the bytes behind a url, their digest, and the host a url names. */
  datatype Net = Net(latest: string -> Option<string>, fetch: string -> Option<string>,
                     digest: string -> string, urlHost: string -> Option<string>)

  datatype Diagnosis = Diagnosis(mismatch: seq<string>, major: seq<string>, other: seq<Warning>,
                                 candidates: seq<Candidate>)

  const BLANK := Diagnosis([], [], [], [])

  predicate Clean(d: Diagnosis) {
    d.mismatch == [] && d.major == [] && d.other == []
  }

  // ---------- Versions ----------

  /** The classes an entry of the CDN file can fall in. */
  datatype Standing = Inactive | Unknown | Current | Fixable(next: string) | Behind(next: string)

  function StandingOf(net: Net, active: map<string, ActiveRef>, e: CdnEntry): Standing {
    if e.pkg !in active then Inactive
    else match net.latest(e.pkg)
      case None => Unknown
      case Some(latest) =>
        if latest == "" then Unknown
        else if e.version == latest || Compare(e.version, latest) >= 0 then Current
        else if SameMajor(e.version, latest) then Fixable(latest)
        else Behind(latest)
  }

  /** An active entry with a known latest version is in exactly one class, fixed by the version order. */
  lemma StandingByOrder(net: Net, active: map<string, ActiveRef>, e: CdnEntry, latest: string)
    requires e.pkg in active && net.latest(e.pkg) == Some(latest) && latest != ""
    ensures var s, p, q := StandingOf(net, active, e), VersionParts(e.version), VersionParts(latest);
      && (s == Current <==> !Below(p, q))
      && (s == Fixable(latest) <==> Below(p, q) && SameMajor(e.version, latest))
      && (s == Behind(latest) <==> Below(p, q) && !SameMajor(e.version, latest))
  {
    CompareMeaning(e.version, latest);
    CompareFromMeaning(VersionParts(e.version), VersionParts(latest), 0);
  }

  /** The registry has no answer for an active package, or an empty one. */
  predicate IsUnknown(net: Net, active: map<string, ActiveRef>, e: CdnEntry) {
    e.pkg in active && (net.latest(e.pkg).None? || net.latest(e.pkg).value == "")
  }

  /** An active package is below its latest version, which has another major part. */
  ghost predicate IsBehind(net: Net, active: map<string, ActiveRef>, e: CdnEntry) {
    && e.pkg in active && !IsUnknown(net, active, e)
    && var latest := net.latest(e.pkg).value;
       Below(VersionParts(e.version), VersionParts(latest)) && !SameMajor(e.version, latest)
  }

  /** The first three classes, and the last, each by its own condition. */
  lemma StandingExactly(net: Net, active: map<string, ActiveRef>, e: CdnEntry)
    ensures var s := StandingOf(net, active, e);
      && (s.Inactive? <==> e.pkg !in active)
      && (s.Unknown? <==> IsUnknown(net, active, e))
      && (s.Behind? <==> IsBehind(net, active, e))
  {
    if e.pkg in active && !IsUnknown(net, active, e) { StandingByOrder(net, active, e, net.latest(e.pkg).value); }
  }

  function VersionStep(net: Net, active: map<string, ActiveRef>, d: Diagnosis, key: string, e: CdnEntry): Diagnosis {
    match StandingOf(net, active, e)
    case Unknown => d.(other := d.other + [ApiFail(e.pkg)])
    case Fixable(next) => d.(candidates := d.candidates + [Candidate(key, e.pkg, e.version, next)])
    case Behind(next) => d.(major := d.major + [e.pkg])
    case _ => d
  }

  function VersionFold(net: Net, active: map<string, ActiveRef>, d: Diagnosis,
                       entries: map<string, CdnEntry>, order: seq<string>): Diagnosis
    requires forall k :: k in order ==> k in entries
  {
    if order == [] then d
    else
      var k := order[|order| - 1];
      VersionStep(net, active, VersionFold(net, active, d, entries, order[..|order| - 1]), k, entries[k])
  }

  /** An active entry that the registry knows and that is not a major version behind. */
  predicate VersionFine(net: Net, active: map<string, ActiveRef>, e: CdnEntry) {
    !StandingOf(net, active, e).Unknown? && !StandingOf(net, active, e).Behind?
  }

  lemma {:induction false} VersionFoldMeaning(net: Net, active: map<string, ActiveRef>, d: Diagnosis,
                                              entries: map<string, CdnEntry>, order: seq<string>)
    requires forall k :: k in order ==> k in entries
    ensures var d' := VersionFold(net, active, d, entries, order);
      && d'.mismatch == d.mismatch
      && (Clean(d') <==> Clean(d) && forall k :: k in order ==> VersionFine(net, active, entries[k]))
      && (d'.other == [] <==> d.other == [] && forall k :: k in order ==> !StandingOf(net, active, entries[k]).Unknown?)
  {
    if order != [] {
      var init, last := order[..|order| - 1], order[|order| - 1];
      VersionFoldMeaning(net, active, d, entries, init);
      VersionStepMeaning(net, active, VersionFold(net, active, d, entries, init), last, entries[last]);
      assert order == init + [last];
    }
  }

  lemma VersionStepMeaning(net: Net, active: map<string, ActiveRef>, d: Diagnosis, key: string, e: CdnEntry)
    ensures var d' := VersionStep(net, active, d, key, e);
      && d'.mismatch == d.mismatch && (Clean(d') <==> Clean(d) && VersionFine(net, active, e))
      && (d'.other == [] <==> d.other == [] && !StandingOf(net, active, e).Unknown?)
  {
  }

  /** An entry adds one item at most: a note, a package, or a candidate. */
  lemma VersionStepOnce(net: Net, active: map<string, ActiveRef>, d: Diagnosis, key: string, e: CdnEntry)
    ensures var d' := VersionStep(net, active, d, key, e);
      && |d'.other| == |d.other| + (if IsUnknown(net, active, e) then 1 else 0)
      && |d'.major| == |d.major| + (if IsBehind(net, active, e) then 1 else 0)
      && |d'.candidates| == |d.candidates| + (if StandingOf(net, active, e).Fixable? then 1 else 0)
  {
    StandingExactly(net, active, e);
  }

  /** What the version pass adds to the lists: packages a major version behind, and a note for each failed look-up. */
  lemma {:induction false} VersionFoldLists(net: Net, active: map<string, ActiveRef>, d: Diagnosis,
                                            entries: map<string, CdnEntry>, order: seq<string>)
    requires forall k :: k in order ==> k in entries
    ensures var d' := VersionFold(net, active, d, entries, order);
      && d'.mismatch == d.mismatch
      && (forall p :: p in d'.major <==>
            p in d.major || exists k :: k in order && entries[k].pkg == p && IsBehind(net, active, entries[k]))
      && (forall x :: x in d'.other <==>
            || x in d.other
            || exists k :: k in order && IsUnknown(net, active, entries[k]) && x == ApiFail(entries[k].pkg))
  {
    if order != [] {
      var init, last := order[..|order| - 1], order[|order| - 1];
      VersionFoldLists(net, active, d, entries, init);
      assert order == init + [last];
      StandingExactly(net, active, entries[last]);
    }
  }

  predicate IsFixOf(net: Net, active: map<string, ActiveRef>, entries: map<string, CdnEntry>, k: string, c: Candidate)
    requires k in entries
  {
    && StandingOf(net, active, entries[k]) == Fixable(c.next)
    && c == Candidate(k, entries[k].pkg, entries[k].version, c.next)
  }

  /** The candidates are exactly the fixable entries met, whatever the order. */
  lemma {:induction false} CandidatesExact(net: Net, active: map<string, ActiveRef>, d: Diagnosis,
                                           entries: map<string, CdnEntry>, order: seq<string>, c: Candidate)
    requires forall k :: k in order ==> k in entries
    ensures c in VersionFold(net, active, d, entries, order).candidates <==>
              c in d.candidates || (c.key in order && IsFixOf(net, active, entries, c.key, c))
  {
    if order != [] {
      var init, last := order[..|order| - 1], order[|order| - 1];
      CandidatesExact(net, active, d, entries, init, c);
      assert order == init + [last];
    }
  }

  /** A candidate moves strictly up within its major version, to what the registry calls latest. */
  lemma CandidateGoesUp(net: Net, active: map<string, ActiveRef>, entries: map<string, CdnEntry>, k: string,
      c: Candidate)
    requires k in entries && IsFixOf(net, active, entries, k, c)
    ensures Below(VersionParts(c.was), VersionParts(c.next)) && SameMajor(c.was, c.next) && c.was != c.next
    ensures c.pkg in active && net.latest(c.pkg) == Some(c.next)
  {
    CompareMeaning(c.was, c.next);
    CompareFromMeaning(VersionParts(c.was), VersionParts(c.next), 0);
  }

  // ---------- Hashes ----------

  function SriStep(net: Net, cfg: Config, d: Diagnosis, url: string, stored: string): Diagnosis {
    if !HasPrefix(url, "https://") then d
    else match net.urlHost(url)
      case None => d.(other := d.other + [BadUrl(url)])
      case Some(host) =>
        if !HostAllowed(Lower(host), cfg.hosts) then d.(other := d.other + [HostBlocked(host)])
        else match net.fetch(url)
          case None => d.(other := d.other + [FetchFail(url)])
          case Some(body) => if net.digest(body) != stored then d.(mismatch := d.mismatch + [url]) else d
  }

  function SriFold(net: Net, cfg: Config, d: Diagnosis, entries: map<string, string>, order: seq<string>): Diagnosis
    requires forall u :: u in order ==> u in entries
  {
    if order == [] then d
    else
      var u := order[|order| - 1];
      SriStep(net, cfg, SriFold(net, cfg, d, entries, order[..|order| - 1]), u, entries[u])
  }

  /** An https entry names an allowed host and stores the digest of what is served there now. */
  predicate HashFine(net: Net, cfg: Config, url: string, stored: string) {
    HasPrefix(url, "https://") ==>
      && net.urlHost(url).Some? && HostFine(cfg, net.urlHost(url).value)
      && net.fetch(url).Some? && net.digest(net.fetch(url).value) == stored
  }

  /** The same, a stale digest being no obstacle. */
  predicate Reachable(net: Net, cfg: Config, url: string) {
    HasPrefix(url, "https://") ==>
      && net.urlHost(url).Some? && HostFine(cfg, net.urlHost(url).value) && net.fetch(url).Some?
  }

  /** An https entry that can be compared, and stores another digest than that of what is served there. */
  predicate IsStale(net: Net, cfg: Config, url: string, stored: string) {
    && HasPrefix(url, "https://") && Reachable(net, cfg, url)
    && net.digest(net.fetch(url).value) != stored
  }

  /** The note made of an https entry that cannot be compared. */
  predicate NotedUrl(net: Net, cfg: Config, url: string, x: Warning) {
    && HasPrefix(url, "https://")
    && match net.urlHost(url)
       case None => x == BadUrl(url)
       case Some(host) =>
         if !HostFine(cfg, host) then x == HostBlocked(host) else net.fetch(url).None? && x == FetchFail(url)
  }

  lemma {:induction false} SriFoldMeaning(net: Net, cfg: Config, d: Diagnosis, entries: map<string, string>,
      order: seq<string>)
    requires forall u :: u in order ==> u in entries
    ensures var d' := SriFold(net, cfg, d, entries, order);
      && d'.candidates == d.candidates
      && (Clean(d') <==> Clean(d) && forall u :: u in order ==> HashFine(net, cfg, u, entries[u]))
      && (d'.other == [] <==> d.other == [] && forall u :: u in order ==> Reachable(net, cfg, u))
  {
    if order != [] {
      var init, last := order[..|order| - 1], order[|order| - 1];
      SriFoldMeaning(net, cfg, d, entries, init);
      assert order == init + [last];
      SriStepMeaning(net, cfg, SriFold(net, cfg, d, entries, init), last, entries[last]);
    }
  }

  lemma SriStepMeaning(net: Net, cfg: Config, d: Diagnosis, url: string, stored: string)
    ensures var d' := SriStep(net, cfg, d, url, stored);
      && d'.candidates == d.candidates && d'.major == d.major
      && (Clean(d') <==> Clean(d) && HashFine(net, cfg, url, stored))
      && (d'.other == [] <==> d.other == [] && Reachable(net, cfg, url))
      && (forall u :: u in d'.mismatch <==> u in d.mismatch || (u == url && IsStale(net, cfg, url, stored)))
      && (forall x :: x in d'.other <==> x in d.other || NotedUrl(net, cfg, url, x))
  {
    if net.urlHost(url).Some? { HostMeaning(cfg, net.urlHost(url).value); }
  }

  /** An entry adds one item at most: its url, or a note. */
  lemma SriStepOnce(net: Net, cfg: Config, d: Diagnosis, url: string, stored: string)
    ensures var d' := SriStep(net, cfg, d, url, stored);
      && |d'.mismatch| == |d.mismatch| + (if IsStale(net, cfg, url, stored) then 1 else 0)
      && |d'.other| == |d.other| + (if Reachable(net, cfg, url) then 0 else 1)
  {
    if net.urlHost(url).Some? { HostMeaning(cfg, net.urlHost(url).value); }
  }

  /** What the hash pass adds to the lists: the stale urls, and a note for each that cannot be compared. */
  lemma {:induction false} SriFoldLists(net: Net, cfg: Config, d: Diagnosis, entries: map<string, string>,
      order: seq<string>)
    requires forall u :: u in order ==> u in entries
    ensures var d' := SriFold(net, cfg, d, entries, order);
      && d'.major == d.major
      && (forall u :: u in d'.mismatch <==> u in d.mismatch || (u in order && IsStale(net, cfg, u, entries[u])))
      && (forall x :: x in d'.other <==> x in d.other || exists u :: u in order && NotedUrl(net, cfg, u, x))
  {
    if order != [] {
      var init, last := order[..|order| - 1], order[|order| - 1];
      SriFoldLists(net, cfg, d, entries, init);
      assert order == init + [last];
      SriStepMeaning(net, cfg, SriFold(net, cfg, d, entries, init), last, entries[last]);
    }
  }

  function MissingFold(d: Diagnosis, entries: map<string, string>, active: map<string, ActiveRef>,
      order: seq<string>): Diagnosis
    requires forall p :: p in order ==> p in active
  {
    if order == [] then d
    else
      var url := active[order[|order| - 1]].url;
      var d' := MissingFold(d, entries, active, order[..|order| - 1]);
      if url in entries then d' else d'.(other := d'.other + [MissingEntry(url)])
  }

  /** The notes it adds: one for each retained url without an entry. */
  lemma {:induction false} MissingFoldLists(d: Diagnosis, entries: map<string, string>,
      active: map<string, ActiveRef>, order: seq<string>)
    requires forall p :: p in order ==> p in active
    ensures var d' := MissingFold(d, entries, active, order);
      && d'.mismatch == d.mismatch && d'.major == d.major
      && forall x :: x in d'.other <==>
           x in d.other || exists p :: p in order && active[p].url !in entries && x == MissingEntry(active[p].url)
  {
    if order != [] {
      var init, last := order[..|order| - 1], order[|order| - 1];
      MissingFoldLists(d, entries, active, init);
      assert order == init + [last];
    }
  }

  lemma {:induction false} MissingFoldMeaning(d: Diagnosis, entries: map<string, string>,
      active: map<string, ActiveRef>, order: seq<string>)
    requires forall p :: p in order ==> p in active
    ensures var d' := MissingFold(d, entries, active, order);
      && d'.candidates == d.candidates
      && (Clean(d') <==> Clean(d) && forall p :: p in order ==> active[p].url in entries)
      && (d'.other == [] <==> d.other == [] && forall p :: p in order ==> active[p].url in entries)
  {
    if order != [] {
      var init, last := order[..|order| - 1], order[|order| - 1];
      MissingFoldMeaning(d, entries, active, init);
      assert order == init + [last];
    }
  }
}
