/** What the fix makes of the text of the CDN file. */
module SriCdn {
  import opened Text
  import opened SriEvaluate
  import opened SriFix

  /** The parts with `sep` between them. */
  function Joined(parts: seq<string>, sep: string): string
    requires parts != []
  {
    if |parts| == 1 then parts[0] else parts[0] + sep + Joined(parts[1..], sep)
  }

  /** In the part and what follows it, `find` does not occur earlier than right after the part. */
  predicate EndsBefore(part: string, find: string) {
    forall j :: 0 <= j < |part| ==> !OccursAt(part + find, find, j)
  }

  /** The parts of a text between the occurrences of `find`, taken from the left. */
  predicate CutBy(parts: seq<string>, find: string) {
    && parts != [] && !Contains(parts[|parts| - 1], find)
    && forall i :: 0 <= i < |parts| - 1 ==> EndsBefore(parts[i], find)
  }

  lemma {:induction false} ReplaceFirst(part: string, find: string, with: string, rest: string)
    requires |find| > 0 && EndsBefore(part, find)
    ensures ReplaceAll(part + find + rest, find, with) == part + with + ReplaceAll(rest, find, with)
  {
    var s := part + find + rest;
    if part == "" {
      assert s[..|find|] == find && s[|find|..] == rest;
      ReplaceHere(s, find, with);
    } else {
      assert s[..|find|] == (part + find)[..|find|];
      assert !OccursAt(part + find, find, 0);
      assert s[1..] == part[1..] + find + rest;
      EndsLater(part, find);
      ReplaceFirst(part[1..], find, with, rest);
      ReplaceLater(s, find, with);
    }
  }

  lemma EndsLater(part: string, find: string)
    requires part != "" && EndsBefore(part, find)
    ensures EndsBefore(part[1..], find)
  {
    assert (part + find)[1..] == part[1..] + find;
    OccursLater(part + find, find);
  }

  /** Between its parts a text has the new word instead of the old one; that is all. */
  lemma {:induction false} ReplacedBetween(parts: seq<string>, find: string, with: string)
    requires |find| > 0 && CutBy(parts, find)
    ensures ReplaceAll(Joined(parts, find), find, with) == Joined(parts, with)
  {
    if |parts| == 1 {
      ReplaceNothing(parts[0], find, with);
    } else {
      assert forall i :: 0 <= i < |parts[1..]| ==> parts[1..][i] == parts[i + 1];
      ReplacedBetween(parts[1..], find, with);
      ReplaceFirst(parts[0], find, with, Joined(parts[1..], find));
    }
  }

  /** Every text has such parts. */
  lemma {:induction false} Cut(s: string, find: string) returns (parts: seq<string>)
    requires |find| > 0
    ensures CutBy(parts, find) && Joined(parts, find) == s
    decreases |s|
  {
    IndexOfMeaning(s, find);
    if IndexOf(s, find) >= 0 {
      var i := IndexOf(s, find);
      var rest := Cut(s[i + |find|..], find);
      parts := [s[..i]] + rest;
      assert parts[1..] == rest && s == s[..i] + find + s[i + |find|..];
      forall j | 0 <= j < i ensures !OccursAt(s[..i] + find, find, j) {
        assert !OccursAt(s, find, j) && s[..i + |find|] == s[..i] + find;
        assert (s[..i] + find)[j..j + |find|] == s[j..j + |find|];
      }
      assert forall k :: 1 <= k < |parts| ==> parts[k] == rest[k - 1];
    } else {
      parts := [s];
    }
  }

  /**
   * The values are rewritten first: wherever the text has "pkg@was/" it gets "pkg@next/". In what comes of that, "#
   * pkg@was" becomes "# pkg@next". Nothing else changes.
   */
  lemma CdnRewritten(c: Candidate, values: seq<string>, comments: seq<string>)
    requires CutBy(values, c.pkg + "@" + c.was + "/") && CutBy(comments, "# " + c.pkg + "@" + c.was)
    requires Joined(values, c.pkg + "@" + c.next + "/") == Joined(comments, "# " + c.pkg + "@" + c.was)
    ensures RewriteCdn(Joined(values, c.pkg + "@" + c.was + "/"), c) == Joined(comments, "# " + c.pkg + "@" + c.next)
  {
    ReplacedBetween(values, c.pkg + "@" + c.was + "/", c.pkg + "@" + c.next + "/");
    ReplacedBetween(comments, "# " + c.pkg + "@" + c.was, "# " + c.pkg + "@" + c.next);
  }

  /** The candidates rewrite the text one after another; one without a new version leaves it alone. */
  lemma {:induction false} RewrittenInTurn(raw: string, cands: seq<Candidate>) returns (texts: seq<string>)
    ensures |texts| == |cands| + 1 && texts[0] == raw && texts[|cands|] == RewriteAll(raw, cands)
    ensures forall i :: 0 <= i < |cands| ==>
              texts[i + 1] == if |cands[i].next| > 0 then RewriteCdn(texts[i], cands[i]) else texts[i]
  {
    if cands == [] {
      texts := [raw];
    } else {
      var init := RewrittenInTurn(raw, cands[..|cands| - 1]);
      texts := init + [RewriteAll(raw, cands)];
    }
  }
}
