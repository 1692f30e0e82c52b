/** Two candidates of one evaluation whose renames depend on the order the maps are walked in. */
module SriOrders {
  import opened Wrappers
  import opened Text
  import opened Versions
  import opened SriScan
  import opened SriEvaluate
  import opened SriFix

  // ---------- A url with two pinned packages ----------

  /** A url that names two packages at one version. */
  function Two(head: string, version: string, mid: string, tail: string): string {
    head + (("@" + version + "/") + (mid + (("@" + version + "/") + tail)))
  }

  lemma {:induction false} ReplaceFront(u: string, s: string, find: string, with: string)
    requires |find| > 0 && find[0] !in u
    ensures ReplaceAll(u + s, find, with) == u + ReplaceAll(s, find, with)
  {
    if u == [] {
      assert u + s == s;
    } else {
      ReplaceFront(u[1..], s, find, with);
      var t := u + s;
      assert t[1..] == u[1..] + s && t[0] == u[0] != find[0];
      assert |find| <= |t| ==> t[..|find|][0] == t[0];
      ReplaceLater(t, find, with);
    }
  }

  lemma ReplaceNext(rest: string, find: string, with: string)
    requires |find| > 0
    ensures ReplaceAll(find + rest, find, with) == with + ReplaceAll(rest, find, with)
  {
    assert (find + rest)[..|find|] == find && (find + rest)[|find|..] == rest;
    ReplaceHere(find + rest, find, with);
  }

  /** Every package at that version is renamed. */
  lemma TwoRenamed(head: string, v: string, w: string, mid: string, tail: string)
    requires '@' !in head && '@' !in mid && '@' !in tail
    ensures ReplaceAll(Two(head, v, mid, tail), "@" + v + "/", "@" + w + "/") == Two(head, w, mid, tail)
  {
    var find, with := "@" + v + "/", "@" + w + "/";
    ReplaceFront(head, find + (mid + (find + tail)), find, with);
    ReplaceNext(mid + (find + tail), find, with);
    ReplaceFront(mid, find + tail, find, with);
    ReplaceNext(tail, find, with);
    ReplaceFront(tail, "", find, with);
    assert tail + "" == tail;
  }

  /** The first of the two packages is matched by its candidate, and so is the second. */
  lemma TwoMatched(before: string, x: string, y: string, v: string, tail: string, c: Candidate)
    requires c.was == v && (c.pkg == x || c.pkg == y)
    ensures Matches(Two(before + "/" + x, v, y, tail), c)
  {
    var url, tag, pin := Two(before + "/" + x, v, y, tail), Tag(c), "@" + v + "/";
    if c.pkg == x {
      assert url == before + tag + (y + (pin + tail));
      assert url[|before|..|before| + |tag|] == tag && OccursAt(url, tag, |before|);
    } else {
      var front := before + "/" + x + "@" + v;
      assert url == front + tag + tail;
      assert url[|front|..|front| + |tag|] == tag && OccursAt(url, tag, |front|);
    }
  }

  // ---------- Two candidates ----------

  const X := Candidate("x", "x", Plain(1, 0, 0), Plain(1, 1, 0))
  const Y := Candidate("y", "y", Plain(1, 1, 0), Plain(1, 2, 0))

  /** The data file they come from. */
  const PINS := map["x" := CdnEntry("x", "x", X.was, ""), "y" := CdnEntry("y", "y", Y.was, "")]

  /** With these latest versions they are what one evaluation finds. */
  lemma BothFixable(net: Net, active: map<string, ActiveRef>)
    requires "x" in active && "y" in active && net.latest("x") == Some(X.next) && net.latest("y") == Some(Y.next)
    ensures IsFixOf(net, active, PINS, "x", X) && IsFixOf(net, active, PINS, "y", Y)
  {
    AgreesWithSemVer(1, 0, 0, 1, 1, 0);
    AgreesWithSemVer(1, 1, 0, 1, 2, 0);
    PlainMajor(1, 0, 0);
    PlainMajor(1, 1, 0);
    PlainMajor(1, 2, 0);
    PlainApart(1, 0, 0, 1, 1, 0);
    PlainApart(1, 1, 0, 1, 2, 0);
    assert Plain(1, 1, 0) != "" && Plain(1, 2, 0) != "";
  }

  lemma PlainApart(x: nat, y: nat, z: nat, x': nat, y': nat, z': nat)
    requires (x, y, z) != (x', y', z')
    ensures Plain(x, y, z) != Plain(x', y', z')
  {
    AgreesWithSemVer(x, y, z, x', y', z');
    AgreesWithSemVer(x, y, z, x, y, z);
  }

  const NPM_X := "https://cdn.jsdelivr.net/npm/x"

  function Old(): string { Two(NPM_X, X.was, "y", "f.js") }
  function Middle(): string { Two(NPM_X, X.next, "y", "f.js") }
  function New(): string { Two(NPM_X, Y.next, "y", "f.js") }

  lemma PlainWord(x: nat, y: nat, z: nat)
    ensures '/' !in Plain(x, y, z)
  {
    PlainText(x, y, z);
  }

  /** The one renames the old url to the middle one, which the other renames to the new one. */
  lemma Chained(entries: map<string, string>)
    requires Old() in entries && Middle() in entries
    ensures IsMove([X, Y], entries, Move(Old(), Middle())) && IsMove([X, Y], entries, Move(Middle(), New()))
    ensures forall m :: IsMove([X, Y], entries, m) ==> m.src != m.dst
  {
    StepOf(X, entries);
    StepOf(Y, entries);
    assert X in [X, Y] && Y in [X, Y];
    forall m | IsMove([X, Y], entries, m) ensures m.src != m.dst {
      var c :| c in [X, Y] && MovesBy(c, entries, m);
      VersionsApart();
      RenameMoves(m.src, c);
    }
  }

  lemma VersionsApart()
    ensures X.was != X.next && Y.was != Y.next && '/' !in X.was && '/' !in X.next && '/' !in Y.next
  {
    PlainApart(1, 0, 0, 1, 1, 0);
    PlainApart(1, 1, 0, 1, 2, 0);
    PlainWord(1, 0, 0);
    PlainWord(1, 1, 0);
    PlainWord(1, 2, 0);
  }

  /** A candidate for `x` or `y` takes the url with its old version to the one with its new version. */
  lemma StepOf(c: Candidate, entries: map<string, string>)
    requires (c.pkg == "x" || c.pkg == "y") && c.next != "" && Two(NPM_X, c.was, "y", "f.js") in entries
    ensures MovesBy(c, entries, Move(Two(NPM_X, c.was, "y", "f.js"), Two(NPM_X, c.next, "y", "f.js")))
  {
    NpmX();
    TwoMatched("https://cdn.jsdelivr.net/npm", "x", "y", c.was, "f.js", c);
    TwoRenamed(NPM_X, c.was, c.next, "y", "f.js");
  }

  lemma NpmX()
    ensures "https://cdn.jsdelivr.net/npm" + "/" + "x" == NPM_X && '@' !in NPM_X && '@' !in "y" && '@' !in "f.js"
  {
    assert "https://cdn.jsdelivr.net/npm" + "/" == "https://cdn.jsdelivr.net/npm/";
  }

  /** So with both urls in the hash file the result of the fix depends on the order. */
  lemma RealOrdersDiffer(net: Net, entries: map<string, string>)
    requires Old() in entries && Middle() in entries
    ensures !OrdersAgree(net, [X, Y], entries)
  {
    Chained(entries);
    OrdersAgreeIff(net, [X, Y], entries);
  }
}
