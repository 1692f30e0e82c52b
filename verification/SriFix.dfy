/** The two-file automatic fix: rewriting both data files, or neither. */
module SriFix {
  import opened Text
  import opened SriEvaluate

  /** The hash file as its parser sees it. */
  datatype SriDoc = Doc(entries: map<string, string>) | Garbled

  /** Which of the steps outside the model's control fail. */
  datatype Faults = Faults(readCdn: bool, readSri: bool, writeCdn: bool, marshal: bool, writeSri: bool,
                           build: bool, restoreCdn: bool, restoreSri: bool)

  /** A hash entry moving from one url to another. */
  datatype Move = Move(src: string, dst: string)

  function Tag(c: Candidate): string {
    "/" + c.pkg + "@" + c.was + "/"
  }

  predicate Matches(url: string, c: Candidate) {
    Contains(url, Tag(c))
  }

  function NewUrl(url: string, c: Candidate): string {
    ReplaceAll(url, "@" + c.was + "/", "@" + c.next + "/")
  }

  function MoveFor(url: string, c: Candidate): Move {
    Move(url, NewUrl(url, c))
  }

  function RewriteCdn(raw: string, c: Candidate): string {
    ReplaceAll(ReplaceAll(raw, c.pkg + "@" + c.was + "/", c.pkg + "@" + c.next + "/"),
               "# " + c.pkg + "@" + c.was, "# " + c.pkg + "@" + c.next)
  }

  function RewriteAll(raw: string, cands: seq<Candidate>): string {
    if cands == [] then raw
    else
      var c := cands[|cands| - 1];
      var raw' := RewriteAll(raw, cands[..|cands| - 1]);
      if c.next == "" then raw' else RewriteCdn(raw', c)
  }

  /** The candidate moves this entry. */
  predicate MovesBy(c: Candidate, entries: map<string, string>, m: Move) {
    c.next != "" && m.src in entries && Matches(m.src, c) && m == MoveFor(m.src, c)
  }

  /** Some candidate moves this entry. */
  ghost predicate IsMove(cands: seq<Candidate>, entries: map<string, string>, m: Move) {
    exists c :: c in cands && MovesBy(c, entries, m)
  }

  function Live(net: Net, url: string): string {
    match net.fetch(url)
    case Some(body) => net.digest(body)
    case None => ""
  }

  /** The hash map after the moves, one by one. */
  function ApplyMoves(net: Net, entries: map<string, string>, moves: seq<Move>): map<string, string> {
    if moves == [] then entries
    else
      var m := moves[|moves| - 1];
      (ApplyMoves(net, entries, moves[..|moves| - 1]) - {m.src})[m.dst := Live(net, m.dst)]
  }

  // ---------- Independence of the iteration order ----------

  predicate Leaves(moves: seq<Move>, url: string) {
    exists i :: 0 <= i < |moves| && moves[i].src == url
  }

  predicate Arrives(moves: seq<Move>, url: string) {
    exists i :: 0 <= i < |moves| && moves[i].dst == url
  }

  /** No entry arrives where another one leaves. */
  ghost predicate Untangled(moves: seq<Move>) {
    forall m, n :: m in moves && n in moves ==> m.dst != n.src
  }

  /**
   * Key by key: a url something arrives at stores the digest of what is served there, a url only left is
   * gone, and every other entry is what it was.
   */
  lemma {:induction false} MovesClosed(net: Net, entries: map<string, string>, moves: seq<Move>, url: string)
    requires Untangled(moves)
    ensures var r := ApplyMoves(net, entries, moves);
      && (Arrives(moves, url) ==> url in r && r[url] == Live(net, url))
      && (!Arrives(moves, url) && Leaves(moves, url) ==> url !in r)
      && (!Arrives(moves, url) && !Leaves(moves, url) ==>
          (url in r <==> url in entries) && (url in r ==> r[url] == entries[url]))
  {
    if moves != [] {
      var init, m := moves[..|moves| - 1], moves[|moves| - 1];
      assert moves == init + [m];
      MovesClosed(net, entries, init, url);
      assert Arrives(moves, url) <==> Arrives(init, url) || m.dst == url by {
        if Arrives(init, url) { var i :| 0 <= i < |init| && init[i].dst == url; assert moves[i].dst == url; }
        if m.dst == url { assert moves[|init|].dst == url; }
      }
      assert Leaves(moves, url) <==> Leaves(init, url) || m.src == url by {
        if Leaves(init, url) { var i :| 0 <= i < |init| && init[i].src == url; assert moves[i].src == url; }
        if m.src == url { assert moves[|init|].src == url; }
      }
      if Arrives(init, url) {
        var i :| 0 <= i < |init| && init[i].dst == url;
        assert init[i] in moves && m in moves;
      }
    }
  }

  /** Whatever order the maps are walked in, untangled moves end in the same hash map. */
  lemma OrderIrrelevant(net: Net, entries: map<string, string>, moves: seq<Move>, moves': seq<Move>)
    requires Untangled(moves) && forall m :: m in moves <==> m in moves'
    ensures ApplyMoves(net, entries, moves) == ApplyMoves(net, entries, moves')
  {
    var r, r' := ApplyMoves(net, entries, moves), ApplyMoves(net, entries, moves');
    assert Untangled(moves');
    forall u ensures (u in r <==> u in r') && (u in r ==> r[u] == r'[u]) {
      MovesClosed(net, entries, moves, u);
      MovesClosed(net, entries, moves', u);
      SameEnds(moves, moves', u);
      SameEnds(moves', moves, u);
    }
  }

  lemma SameEnds(moves: seq<Move>, moves': seq<Move>, u: string)
    requires forall m :: m in moves ==> m in moves'
    ensures Arrives(moves, u) ==> Arrives(moves', u)
    ensures Leaves(moves, u) ==> Leaves(moves', u)
  {
    if Arrives(moves, u) {
      var i :| 0 <= i < |moves| && moves[i].dst == u;
      assert moves[i] in moves';
    }
    if Leaves(moves, u) {
      var i :| 0 <= i < |moves| && moves[i].src == u;
      assert moves[i] in moves';
    }
  }

  // ---------- Which orders agree ----------

  /** The moves of one candidate, its urls in some order. */
  ghost predicate IsBlock(c: Candidate, entries: map<string, string>, moves: seq<Move>) {
    forall m :: m in moves <==> MovesBy(c, entries, m)
  }

  /** The moves of candidates taken in this order, the urls of each in some order. */
  ghost predicate IsWalk(cs: seq<Candidate>, entries: map<string, string>, moves: seq<Move>) {
    if cs == [] then moves == []
    else
      exists k: nat :: k <= |moves| &&
        IsWalk(cs[..|cs| - 1], entries, moves[..k]) && IsBlock(cs[|cs| - 1], entries, moves[k..])
  }

  /** The moves of one way of walking both maps. */
  ghost predicate Walks(cands: seq<Candidate>, entries: map<string, string>, moves: seq<Move>) {
    exists cs :: multiset(cs) == multiset(cands) && IsWalk(cs, entries, moves)
  }

  lemma OneMoreBlock(cs: seq<Candidate>, c: Candidate, entries: map<string, string>, moves: seq<Move>, more: seq<Move>)
    requires IsWalk(cs, entries, moves) && IsBlock(c, entries, more)
    ensures IsWalk(cs + [c], entries, moves + more)
  {
    var all := moves + more;
    assert all[..|moves|] == moves && all[|moves|..] == more;
    assert (cs + [c])[..|cs|] == cs;
    var k := |moves|;
    assert k <= |all| && IsWalk(cs, entries, all[..k]) && IsBlock(c, entries, all[k..]);
  }

  /** A walk makes exactly the moves there are. */
  lemma {:induction false} WalkMoves(cs: seq<Candidate>, entries: map<string, string>, moves: seq<Move>, m: Move)
    requires IsWalk(cs, entries, moves)
    ensures m in moves <==> IsMove(cs, entries, m)
  {
    if cs != [] {
      var init, last := cs[..|cs| - 1], cs[|cs| - 1];
      var k: nat :| k <= |moves| && IsWalk(init, entries, moves[..k]) && IsBlock(last, entries, moves[k..]);
      WalkMoves(init, entries, moves[..k], m);
      assert moves == moves[..k] + moves[k..] && cs == init + [last];
    }
  }

  lemma WalksMoves(cands: seq<Candidate>, entries: map<string, string>, moves: seq<Move>)
    requires Walks(cands, entries, moves)
    ensures forall m :: m in moves <==> IsMove(cands, entries, m)
  {
    var cs :| multiset(cs) == multiset(cands) && IsWalk(cs, entries, moves);
    forall m ensures m in moves <==> IsMove(cands, entries, m) {
      WalkMoves(cs, entries, moves, m);
      forall c ensures c in cs <==> c in cands { assert c in multiset(cs) <==> c in multiset(cands); }
    }
  }

  /** The urls in some order, one of them last if it is there. */
  lemma {:induction false} UrlsWithLast(urls: set<string>, last: string) returns (order: seq<string>)
    ensures forall u :: u in order <==> u in urls
    ensures last in urls ==> order != [] && order[|order| - 1] == last
  {
    if urls == {} {
      order := [];
    } else {
      var u :| u in urls && (last in urls ==> u == last);
      var init := UrlsWithLast(urls - {u}, "");
      order := init + [u];
    }
  }

  lemma BlockWithLast(c: Candidate, entries: map<string, string>, url: string) returns (moves: seq<Move>)
    ensures IsBlock(c, entries, moves)
    ensures MovesBy(c, entries, MoveFor(url, c)) ==> moves != [] && moves[|moves| - 1] == MoveFor(url, c)
  {
    if c.next == "" {
      moves := [];
    } else {
      var order := UrlsWithLast((set u | u in entries && Matches(u, c)), url);
      moves := seq(|order|, i requires 0 <= i < |order| => MoveFor(order[i], c));
      forall m ensures m in moves <==> MovesBy(c, entries, m) {
        if MovesBy(c, entries, m) {
          assert m.src in order;
          var i :| 0 <= i < |order| && order[i] == m.src;
          assert moves[i] == m;
        }
        if m in moves {
          var i :| 0 <= i < |moves| && moves[i] == m;
          assert order[i] in order && m == MoveFor(order[i], c);
        }
      }
    }
  }

  lemma {:induction false} SomeWalk(cs: seq<Candidate>, entries: map<string, string>) returns (moves: seq<Move>)
    ensures IsWalk(cs, entries, moves)
  {
    if cs == [] {
      moves := [];
    } else {
      var init := SomeWalk(cs[..|cs| - 1], entries);
      var block := BlockWithLast(cs[|cs| - 1], entries, "");
      OneMoreBlock(cs[..|cs| - 1], cs[|cs| - 1], entries, init, block);
      assert cs[..|cs| - 1] + [cs[|cs| - 1]] == cs;
      moves := init + block;
    }
  }

  /** The candidates with one of them moved to the end. */
  lemma MovedLast(cands: seq<Candidate>, c: Candidate) returns (others: seq<Candidate>)
    requires c in cands
    ensures multiset(others + [c]) == multiset(cands)
  {
    var i :| 0 <= i < |cands| && cands[i] == c;
    others := cands[..i] + cands[i + 1..];
    assert cands == cands[..i] + [c] + cands[i + 1..];
  }

  /** Any move can come last. */
  lemma WalkEndingWith(cands: seq<Candidate>, entries: map<string, string>, m: Move) returns (moves: seq<Move>)
    requires IsMove(cands, entries, m)
    ensures Walks(cands, entries, moves) && moves != [] && moves[|moves| - 1] == m
  {
    var c :| c in cands && MovesBy(c, entries, m);
    var others := MovedLast(cands, c);
    var init := SomeWalk(others, entries);
    var block := BlockWithLast(c, entries, m.src);
    OneMoreBlock(others, c, entries, init, block);
    moves := init + block;
    SameCandidates(cands, others + [c], entries, moves);
    EndsLike(init, block);
  }

  lemma SameCandidates(cands: seq<Candidate>, cs: seq<Candidate>, entries: map<string, string>, moves: seq<Move>)
    requires multiset(cs) == multiset(cands) && IsWalk(cs, entries, moves)
    ensures Walks(cands, entries, moves)
  {
  }

  lemma EndsLike(init: seq<Move>, block: seq<Move>)
    requires block != []
    ensures (init + block)[|init + block| - 1] == block[|block| - 1]
  {
  }

  /** After a last move its target is there; its source is not, unless it stays in place. */
  lemma LastMove(net: Net, entries: map<string, string>, moves: seq<Move>)
    requires moves != []
    ensures var m, r := moves[|moves| - 1], ApplyMoves(net, entries, moves);
            m.dst in r && (m.src != m.dst ==> m.src !in r)
  {
  }

  ghost predicate AllUntangled(cands: seq<Candidate>, entries: map<string, string>) {
    forall m, n :: IsMove(cands, entries, m) && IsMove(cands, entries, n) ==> m.dst != n.src
  }

  ghost predicate OrdersAgree(net: Net, cands: seq<Candidate>, entries: map<string, string>) {
    forall a, b :: Walks(cands, entries, a) && Walks(cands, entries, b) ==>
      ApplyMoves(net, entries, a) == ApplyMoves(net, entries, b)
  }

  /** All ways of walking the maps end in the same hash map, exactly if no entry moves to where another one was. */
  lemma OrdersAgreeIff(net: Net, cands: seq<Candidate>, entries: map<string, string>)
    requires forall m :: IsMove(cands, entries, m) ==> m.src != m.dst
    ensures OrdersAgree(net, cands, entries) <==> AllUntangled(cands, entries)
  {
    if AllUntangled(cands, entries) {
      forall a, b | Walks(cands, entries, a) && Walks(cands, entries, b)
        ensures ApplyMoves(net, entries, a) == ApplyMoves(net, entries, b)
      {
        WalksMoves(cands, entries, a);
        WalksMoves(cands, entries, b);
        OrderIrrelevant(net, entries, a, b);
      }
    } else {
      var m, n :| IsMove(cands, entries, m) && IsMove(cands, entries, n) && m.dst == n.src;
      var a := WalkEndingWith(cands, entries, m);
      var b := WalkEndingWith(cands, entries, n);
      LastMove(net, entries, a);
      LastMove(net, entries, b);
    }
  }

  /** Of any moves at all: of two in a row the order matters as soon as one arrives where the other leaves. */
  lemma TangledOrderMatters(net: Net, entries: map<string, string>, others: seq<Move>, m: Move, n: Move)
    requires m.dst == n.src && n.src != n.dst
    ensures ApplyMoves(net, entries, others + [m, n]) != ApplyMoves(net, entries, others + [n, m])
  {
    LastMove(net, entries, others + [m, n]);
    LastMove(net, entries, others + [n, m]);
  }

  // ---------- A rename changes something ----------

  /** A candidate's rename is never in place, versions being words without a slash. */
  lemma RenameMoves(url: string, c: Candidate)
    requires Matches(url, c) && c.was != c.next && '/' !in c.was && '/' !in c.next
    ensures NewUrl(url, c) != url
  {
    var find, with := "@" + c.was + "/", "@" + c.next + "/";
    var i :| 0 <= i <= |url| && OccursAt(url, Tag(c), i);
    var at := i + 1 + |c.pkg|;
    assert Tag(c) == "/" + c.pkg + find;
    assert url[at..at + |find|] == url[i..i + |Tag(c)|][1 + |c.pkg|..];
    assert OccursAt(url, find, at);
    WordPrefix(c.was, c.next);
    WordPrefix(c.next, c.was);
    ReplaceChanges(url, find, with, at);
  }

  lemma WordPrefix(v: string, w: string)
    requires '/' !in v && '/' !in w
    ensures "@" + v + "/" <= "@" + w + "/" ==> v == w
  {
    var find, with := "@" + v + "/", "@" + w + "/";
    if find <= with {
      assert find[|v| + 1] == '/' && with[|v| + 1] == '/';
      assert forall k :: 0 < k <= |w| ==> with[k] == w[k - 1];
      assert |v| == |w|;
      assert v == find[1..|v| + 1] && w == with[1..|w| + 1];
    }
  }

  lemma TwoPrefixes(s: string, a: string, b: string)
    requires a <= s && b <= s
    ensures a <= b || b <= a
  {
    if |a| <= |b| { assert a == s[..|a|] && b == s[..|b|]; }
  }

  lemma {:induction false} ReplaceChanges(s: string, find: string, with: string, i: nat)
    requires |find| > 0 && !(find <= with) && !(with <= find) && OccursAt(s, find, i)
    ensures ReplaceAll(s, find, with) != s
  {
    if OccursAt(s, find, 0) {
      ReplaceHere(s, find, with);
      var r := ReplaceAll(s, find, with);
      assert find <= s && with <= r;
      if r == s { TwoPrefixes(s, find, with); }
    } else {
      OccursLater(s, find);
      ReplaceChanges(s[1..], find, with, i - 1);
      ReplaceLater(s, find, with);
      assert ReplaceAll(s, find, with)[1..] == ReplaceAll(s[1..], find, with);
    }
  }
}
