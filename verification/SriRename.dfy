/** When the fix renames the right entries, and what its hash map then holds. */
module SriRename {
  import opened Text
  import opened SriEvaluate
  import opened SriFix
  import opened SriNames

  /** Every entry's url names one package and version, or none. */
  ghost predicate WellNamed(entries: map<string, string>) {
    forall u :: u in entries ==> Bare(u) || exists p :: Names(u, p)
  }

  /** Candidates of one evaluation: named by words, and with one target per package. */
  ghost predicate CandidatesFit(cands: seq<Candidate>) {
    && (forall c :: c in cands ==> CandidateOk(c))
    && (forall c, d :: c in cands && d in cands && c.pkg == d.pkg ==> c.next == d.next)
  }

  /** The candidate would rename this url of another package. */
  predicate Confused(c: Candidate, p: Place) {
    IsTail(c, p) && p.version == c.was
  }

  /** The candidate is for what the url names. */
  predicate IsFor(c: Candidate, p: Place) {
    PkgOf(p) == c.pkg && p.version == c.was
  }

  ghost predicate NamedEntry(entries: map<string, string>, u: string, p: Place) {
    u in entries && Names(u, p)
  }

  /** No candidate would rename an entry of another package. */
  ghost predicate NoneConfused(cands: seq<Candidate>, entries: map<string, string>) {
    forall u, p, c :: NamedEntry(entries, u, p) && c in cands ==> !Confused(c, p)
  }

  /** Nor would it match an entry's new url. */
  ghost predicate NoneConfusedLater(cands: seq<Candidate>, entries: map<string, string>) {
    forall u, p, c, d :: NamedEntry(entries, u, p) && c in cands && d in cands && IsFor(d, p) ==>
      !Confused(c, p.(version := d.next))
  }

  /** Every entry is renamed by candidates of its own package only. */
  ghost predicate OwnOnly(cands: seq<Candidate>, entries: map<string, string>) {
    forall u, p, c :: NamedEntry(entries, u, p) && c in cands && Matches(u, c) ==> PkgOf(p) == c.pkg
  }

  /** No key carries a candidate's old version. */
  ghost predicate Gone(cands: seq<Candidate>, r: map<string, string>) {
    forall u, c :: u in r && c in cands ==> !Matches(u, c)
  }

  /** Renames keep to their own package exactly if no candidate is the tail of another package in use at its version. */
  lemma OwnOnlyIff(cands: seq<Candidate>, entries: map<string, string>)
    requires CandidatesFit(cands)
    ensures OwnOnly(cands, entries) <==> NoneConfused(cands, entries)
  {
    forall u, p, c | NamedEntry(entries, u, p) && c in cands
      ensures (Matches(u, c) && PkgOf(p) != c.pkg) <==> Confused(c, p)
    {
      MatchesExactly(p, c);
      TailIsOther(c, p);
    }
    if OwnOnly(cands, entries) {
      forall u, p, c | NamedEntry(entries, u, p) && c in cands ensures !Confused(c, p) {}
    }
    if NoneConfused(cands, entries) {
      forall u, p, c | NamedEntry(entries, u, p) && c in cands && Matches(u, c) ensures PkgOf(p) == c.pkg {}
    }
  }

  lemma TailIsOther(c: Candidate, p: Place)
    requires PlaceOk(p) && CandidateOk(c)
    ensures IsTail(c, p) ==> PkgOf(p) != c.pkg
  {
    assert (p.scope != "" ==> PkgOf(p)[0] == '@') && p.name[0] in p.name;
  }

  // ---------- The moves ----------

  /** A candidate for what the entry names takes it to the same url with the new version. */
  lemma OwnMove(p: Place, c: Candidate)
    requires PlaceOk(p) && CandidateOk(c) && IsFor(c, p)
    ensures Matches(UrlText(p), c) && NewUrl(UrlText(p), c) == UrlText(p.(version := c.next))
    ensures PlaceOk(p.(version := c.next)) && Names(NewUrl(UrlText(p), c), p.(version := c.next))
  {
    MatchesExactly(p, c);
    var scope, name :| NamedBy(c.pkg, scope, name) && scope != c.was;
    SameName(p, scope, name);
    RenamedText(p, c);
  }

  /** Under the condition, a match is always a candidate for what the entry names. */
  lemma MatchIsOwn(cands: seq<Candidate>, entries: map<string, string>, u: string, c: Candidate) returns (p: Place)
    requires CandidatesFit(cands) && WellNamed(entries) && NoneConfused(cands, entries)
    requires u in entries && c in cands && Matches(u, c)
    ensures NamedEntry(entries, u, p) && IsFor(c, p)
  {
    if Bare(u) { BareUnmatched(u, c); }
    p :| Names(u, p);
    assert NamedEntry(entries, u, p);
    MatchesExactly(p, c);
  }

  /** A renamed url is matched by no candidate any more. */
  lemma TargetUnmatched(cands: seq<Candidate>, entries: map<string, string>, u: string, c: Candidate, d: Candidate)
    requires CandidatesFit(cands) && WellNamed(entries)
    requires NoneConfused(cands, entries) && NoneConfusedLater(cands, entries)
    requires u in entries && c in cands && d in cands && Matches(u, c)
    ensures !Matches(NewUrl(u, c), d)
  {
    var p := MatchIsOwn(cands, entries, u, c);
    OwnMove(p, c);
    assert !Confused(d, p.(version := c.next));
    MatchesExactly(p.(version := c.next), d);
  }

  /** Then no entry moves to where another moves from, and no target is matched. */
  lemma ClearUntangled(cands: seq<Candidate>, entries: map<string, string>)
    requires CandidatesFit(cands) && WellNamed(entries)
    requires NoneConfused(cands, entries) && NoneConfusedLater(cands, entries)
    ensures AllUntangled(cands, entries)
    ensures forall m, d :: IsMove(cands, entries, m) && d in cands ==> !Matches(m.dst, d)
  {
    forall m, d | IsMove(cands, entries, m) && d in cands ensures !Matches(m.dst, d) {
      var c :| c in cands && MovesBy(c, entries, m);
      TargetUnmatched(cands, entries, m.src, c, d);
    }
    forall m, n | IsMove(cands, entries, m) && IsMove(cands, entries, n) ensures m.dst != n.src {
      var d :| d in cands && MovesBy(d, entries, n);
    }
  }

  /** All the moves there are, in some order. */
  ghost predicate AreMoves(moves: seq<Move>, cands: seq<Candidate>, entries: map<string, string>) {
    forall m :: m in moves <==> IsMove(cands, entries, m)
  }

  /** An entry leaves exactly when some candidate matches it. */
  lemma MatchedLeaves(cands: seq<Candidate>, entries: map<string, string>, moves: seq<Move>, url: string)
    requires CandidatesFit(cands) && AreMoves(moves, cands, entries)
    ensures Leaves(moves, url) <==> url in entries && exists c :: c in cands && Matches(url, c)
  {
    forall c | c in cands && url in entries && Matches(url, c) ensures Leaves(moves, url) {
      assert MovesBy(c, entries, MoveFor(url, c));
      assert IsMove(cands, entries, MoveFor(url, c));
      var i :| 0 <= i < |moves| && moves[i] == MoveFor(url, c);
      assert moves[i].src == url;
    }
    if Leaves(moves, url) {
      var i :| 0 <= i < |moves| && moves[i].src == url;
      assert moves[i] in moves;
    }
  }

  /** A url that something arrives at and nothing leaves from is there at the end. */
  lemma {:induction false} ArrivedStays(net: Net, entries: map<string, string>, moves: seq<Move>, url: string)
    requires Arrives(moves, url) && !Leaves(moves, url)
    ensures url in ApplyMoves(net, entries, moves)
  {
    var init, last := moves[..|moves| - 1], moves[|moves| - 1];
    assert last.src != url;
    if last.dst != url {
      var i :| 0 <= i < |moves| && moves[i].dst == url;
      assert init[i].dst == url;
      forall j | 0 <= j < |init| ensures init[j].src != url { assert init[j] == moves[j]; }
      ArrivedStays(net, entries, init, url);
    }
  }

  // ---------- The hash map after the fix ----------

  /** Nothing odd was renamed, and nothing old is left. */
  ghost predicate Right(net: Net, cands: seq<Candidate>, entries: map<string, string>, moves: seq<Move>) {
    OwnOnly(cands, entries) && Gone(cands, ApplyMoves(net, entries, moves))
  }

  lemma ClearIsRight(net: Net, cands: seq<Candidate>, entries: map<string, string>, moves: seq<Move>)
    requires CandidatesFit(cands) && WellNamed(entries) && AreMoves(moves, cands, entries)
    requires NoneConfused(cands, entries) && NoneConfusedLater(cands, entries)
    ensures Right(net, cands, entries, moves)
  {
    OwnOnlyIff(cands, entries);
    ClearUntangled(cands, entries);
    var r := ApplyMoves(net, entries, moves);
    forall u, c | u in r && c in cands ensures !Matches(u, c) {
      MovesClosed(net, entries, moves, u);
      MatchedLeaves(cands, entries, moves, u);
      if Arrives(moves, u) {
        var i :| 0 <= i < |moves| && moves[i].dst == u;
        assert moves[i] in moves;
      }
    }
  }

  lemma UnclearIsWrong(net: Net, cands: seq<Candidate>, entries: map<string, string>, moves: seq<Move>,
                       u: string, p: Place, c: Candidate, d: Candidate)
    requires CandidatesFit(cands) && WellNamed(entries) && AreMoves(moves, cands, entries)
    requires NamedEntry(entries, u, p) && c in cands && d in cands && IsFor(d, p) && Confused(c, p.(version := d.next))
    ensures !Right(net, cands, entries, moves)
  {
    var q := p.(version := d.next);
    var dst := UrlText(q);
    OwnMove(p, d);
    MatchesExactly(q, c);
    TailIsOther(c, q);
    if dst in entries {
      assert NamedEntry(entries, dst, q);
    } else {
      var m := MoveFor(u, d);
      assert MovesBy(d, entries, m) && IsMove(cands, entries, m);
      var i :| 0 <= i < |moves| && moves[i] == m;
      assert moves[i].dst == dst;
      MatchedLeaves(cands, entries, moves, dst);
      ArrivedStays(net, entries, moves, dst);
    }
  }

  /**
   * Each entry is renamed by candidates of its own package only, and no key keeps a candidate's old version,
   * exactly if no candidate is the last segment of another package named by an entry at the candidate's old version,
   * before its rename or after it.
   */
  lemma RightIff(net: Net, cands: seq<Candidate>, entries: map<string, string>, moves: seq<Move>)
    requires CandidatesFit(cands) && WellNamed(entries) && AreMoves(moves, cands, entries)
    ensures Right(net, cands, entries, moves) <==> NoneConfused(cands, entries) && NoneConfusedLater(cands, entries)
  {
    OwnOnlyIff(cands, entries);
    if NoneConfused(cands, entries) && NoneConfusedLater(cands, entries) {
      ClearIsRight(net, cands, entries, moves);
    } else if NoneConfused(cands, entries) {
      var u, p, c, d :| NamedEntry(entries, u, p) && c in cands && d in cands && IsFor(d, p)
                        && Confused(c, p.(version := d.next));
      UnclearIsWrong(net, cands, entries, moves, u, p, c, d);
    }
  }

  /** Each entry that a candidate is for has moved to its new url, with the digest of what is served there. */
  ghost predicate EntriesMoved(net: Net, cands: seq<Candidate>, entries: map<string, string>, r: map<string, string>) {
    forall u, p, c :: NamedEntry(entries, u, p) && c in cands && IsFor(c, p) ==>
      MovedTo(net, r, u, UrlText(p.(version := c.next)))
  }

  predicate MovedTo(net: Net, r: map<string, string>, u: string, v: string) {
    u !in r && v in r && r[v] == Live(net, v)
  }

  /** Every other key is as it was, and no key is new but the targets. */
  ghost predicate RestKept(cands: seq<Candidate>, entries: map<string, string>, r: map<string, string>) {
    forall u ::
      && (u in entries && !IsTarget(cands, entries, u) && (forall c :: c in cands ==> !Matches(u, c)) ==>
            u in r && r[u] == entries[u])
      && (u in r ==> u in entries || IsTarget(cands, entries, u))
  }

  /** What a right fix leaves: old keys gone, renamed keys with the digest of what is served there, the rest as is. */
  ghost predicate RightlyFixed(net: Net, cands: seq<Candidate>, entries: map<string, string>, r: map<string, string>) {
    Gone(cands, r) && EntriesMoved(net, cands, entries, r) && RestKept(cands, entries, r)
  }

  ghost predicate IsTarget(cands: seq<Candidate>, entries: map<string, string>, url: string) {
    exists m :: IsMove(cands, entries, m) && m.dst == url
  }

  lemma ArrivesIsTarget(cands: seq<Candidate>, entries: map<string, string>, moves: seq<Move>, url: string)
    requires AreMoves(moves, cands, entries)
    ensures Arrives(moves, url) <==> IsTarget(cands, entries, url)
  {
    if Arrives(moves, url) {
      var i :| 0 <= i < |moves| && moves[i].dst == url;
      assert moves[i] in moves;
    }
    if IsTarget(cands, entries, url) {
      var m :| IsMove(cands, entries, m) && m.dst == url;
      var i :| 0 <= i < |moves| && moves[i] == m;
    }
  }

  /** One entry that a candidate is for. */
  lemma EntryFixed(net: Net, cands: seq<Candidate>, entries: map<string, string>, moves: seq<Move>,
                   u: string, p: Place, c: Candidate)
    requires CandidatesFit(cands) && AreMoves(moves, cands, entries) && AllUntangled(cands, entries)
    requires NamedEntry(entries, u, p) && c in cands && IsFor(c, p)
    ensures MovedTo(net, ApplyMoves(net, entries, moves), u, UrlText(p.(version := c.next)))
  {
    var m := MoveFor(u, c);
    OwnMove(p, c);
    assert MovesBy(c, entries, m) && IsMove(cands, entries, m);
    assert Untangled(moves);
    var i :| 0 <= i < |moves| && moves[i] == m;
    assert moves[i].src == u && moves[i].dst == m.dst;
    MovesClosed(net, entries, moves, u);
    MovesClosed(net, entries, moves, m.dst);
    NotLeft(moves, u);
  }

  lemma NotLeft(moves: seq<Move>, u: string)
    requires Untangled(moves) && Leaves(moves, u)
    ensures !Arrives(moves, u)
  {
    var i :| 0 <= i < |moves| && moves[i].src == u;
    forall j | 0 <= j < |moves| ensures moves[j].dst != u { assert moves[i] in moves && moves[j] in moves; }
  }

  /** One key that no candidate matches. */
  lemma EntryStays(net: Net, cands: seq<Candidate>, entries: map<string, string>, moves: seq<Move>, u: string)
    requires CandidatesFit(cands) && AreMoves(moves, cands, entries) && AllUntangled(cands, entries)
    ensures var r := ApplyMoves(net, entries, moves);
      && (u in entries && !IsTarget(cands, entries, u) && (forall c :: c in cands ==> !Matches(u, c)) ==>
            u in r && r[u] == entries[u])
      && (u in r ==> u in entries || IsTarget(cands, entries, u))
  {
    assert Untangled(moves);
    MovesClosed(net, entries, moves, u);
    ArrivesIsTarget(cands, entries, moves, u);
    MatchedLeaves(cands, entries, moves, u);
  }

  lemma AllMoved(net: Net, cands: seq<Candidate>, entries: map<string, string>, moves: seq<Move>)
    requires CandidatesFit(cands) && AreMoves(moves, cands, entries) && AllUntangled(cands, entries)
    ensures EntriesMoved(net, cands, entries, ApplyMoves(net, entries, moves))
  {
    forall u, p, c | NamedEntry(entries, u, p) && c in cands && IsFor(c, p)
      ensures MovedTo(net, ApplyMoves(net, entries, moves), u, UrlText(p.(version := c.next)))
    {
      EntryFixed(net, cands, entries, moves, u, p, c);
    }
  }

  lemma AllKept(net: Net, cands: seq<Candidate>, entries: map<string, string>, moves: seq<Move>)
    requires CandidatesFit(cands) && AreMoves(moves, cands, entries) && AllUntangled(cands, entries)
    ensures RestKept(cands, entries, ApplyMoves(net, entries, moves))
  {
    var r := ApplyMoves(net, entries, moves);
    forall u
      ensures u in entries && !IsTarget(cands, entries, u) && (forall c :: c in cands ==> !Matches(u, c)) ==>
                u in r && r[u] == entries[u]
      ensures u in r ==> u in entries || IsTarget(cands, entries, u)
    {
      EntryStays(net, cands, entries, moves, u);
    }
  }

  /** With no candidate the tail of another package in use, the moves leave a rightly fixed map, in whatever order. */
  lemma FixedHashes(net: Net, cands: seq<Candidate>, entries: map<string, string>, moves: seq<Move>)
    requires CandidatesFit(cands) && WellNamed(entries) && AreMoves(moves, cands, entries)
    requires NoneConfused(cands, entries) && NoneConfusedLater(cands, entries)
    ensures RightlyFixed(net, cands, entries, ApplyMoves(net, entries, moves))
  {
    ClearIsRight(net, cands, entries, moves);
    ClearUntangled(cands, entries);
    AllMoved(net, cands, entries, moves);
    AllKept(net, cands, entries, moves);
  }

  // ---------- Where it goes wrong ----------

  const NPM := "https://cdn.jsdelivr.net/npm"

  /** A candidate for `core` renames an entry of `@popperjs/core` at the same version. */
  lemma TailRenamed()
    ensures var c, url := Candidate("core", "core", "2.0.0", "2.1.0"),
            NPM + "/" + "@popperjs" + "/" + "core@2.0.0" + "/" + "f.js";
      && Matches(url, c) && NewUrl(url, c) == NPM + "/" + "@popperjs" + "/" + "core@2.1.0" + "/" + "f.js"
      && Names(url, Place(NPM, "popperjs", "core", "2.0.0", "f.js"))
  {
    var p, c := Place(NPM, "popperjs", "core", "2.0.0", "f.js"), Candidate("core", "core", "2.0.0", "2.1.0");
    PopperPlace();
    MeetsMatch(p, c, "", "core");
    RenamedText(p, c);
  }

  lemma PopperPlace()
    ensures PlaceOk(Place(NPM, "popperjs", "core", "2.0.0", "f.js")) && NamedBy("core", "", "core")
    ensures UrlText(Place(NPM, "popperjs", "core", "2.0.0", "f.js")) ==
              NPM + "/" + "@popperjs" + "/" + "core@2.0.0" + "/" + "f.js"
    ensures UrlText(Place(NPM, "popperjs", "core", "2.1.0", "f.js")) ==
              NPM + "/" + "@popperjs" + "/" + "core@2.1.0" + "/" + "f.js"
  {
    PopperWords();
    SplitWord("f.js", '/');
    TextOf(NPM, "popperjs", "core", "2.0.0", "f.js", "@popperjs", "core@2.0.0");
    TextOf(NPM, "popperjs", "core", "2.1.0", "f.js", "@popperjs", "core@2.1.0");
  }

  lemma PopperWords()
    ensures Word("popperjs") && Word("core") && Word("2.0.0") && '@' !in NPM && '/' !in "f.js"
    ensures "@" + "popperjs" == "@popperjs" && "core" + "@" + "2.0.0" == "core@2.0.0"
    ensures "core" + "@" + "2.1.0" == "core@2.1.0"
  {
  }

  lemma TextOf(before: string, scope: string, name: string, version: string, after: string, dir: string, pinned: string)
    requires scope != "" && dir == "@" + scope && pinned == name + "@" + version
    ensures UrlText(Place(before, scope, name, version, after)) == before + "/" + dir + "/" + pinned + "/" + after
  {
  }
}
