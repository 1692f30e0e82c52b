/** Page files: frontmatter between two dash lines, then the content. */
module Render {
  import opened Wrappers
  import opened Text

  const DASHES := "---"

  /** The file for marshalled frontmatter and a page body. */
  function Rendered(yaml: string, content: string): string {
    if yaml == "" then content
    else "---\n" + yaml + "---\n\n" + content + (if HasSuffix(content, "\n") then "" else "\n")
  }

  method RenderPage(yaml: string, content: string) returns (out: string)
    ensures out == Rendered(yaml, content) && (|yaml| == 0 ==> out == content)
  {
    if |yaml| == 0 { return content; }
    out := "---\n";
    out := out + yaml;
    out := out + "---\n\n";
    out := out + content;
    if !HasSuffix(content, "\n") { out := out + "\n"; }
    assert out == Rendered(yaml, content);
  }

  /** What the parser is handed, if anything, and the content. */
  datatype Parts = Parts(yaml: Option<string>, content: string)

  function Split(raw: string): Parts {
    if raw == "" then Parts(None, "")
    else if !HasPrefix(raw, DASHES) then Parts(None, raw)
    else
      var i := IndexOf(raw[3..], DASHES);
      IndexOfMeaning(raw[3..], DASHES);
      if i < 0 then Parts(None, raw) else Parts(Some(raw[3..][..i]), TrimSpace(raw[3..][i + 3..]))
  }

  /** The dashes after `head` are the first ones. */
  predicate NoEarlierDashes(head: string) {
    forall j :: 0 <= j < |head| ==> !OccursAt(head + "---", "---", j)
  }

  /**
   * A file is split in two if it begins with dashes and has more of them: what stands up to the second ones goes to
   * the YAML parser, and what comes after is trimmed. Any other file is all content.
   */
  lemma SplitExactly(raw: string, head: string, rest: string)
    ensures raw == "---" + head + "---" + rest && NoEarlierDashes(head) ==>
              Split(raw) == Parts(Some(head), TrimSpace(rest))
    ensures !HasPrefix(raw, "---") || !Contains(raw[3..], "---") ==> Split(raw) == Parts(None, raw)
  {
    if raw == "---" + head + "---" + rest && NoEarlierDashes(head) {
      var t := raw[3..];
      assert t == head + "---" + rest && raw[..3] == "---";
      forall j | 0 <= j < |head| ensures !OccursAt(t, "---", j) {
        assert t[j..j + 3] == (head + "---")[j..j + 3];
        assert !OccursAt(head + "---", "---", j);
      }
      assert t[|head|..|head| + 3] == "---";
      IndexOfUnique(t, "---", |head|);
      assert t[..|head|] == head && t[|head| + 3..] == rest;
    }
    if HasPrefix(raw, "---") { IndexOfMeaning(raw[3..], "---"); }
  }

  lemma TailOf(yaml: string, content: string)
    requires HasSuffix(yaml, "\n")
    ensures var raw := Rendered(yaml, content);
      && HasPrefix(raw, DASHES) && raw != ""
      && raw[3..] == "\n" + yaml + DASHES + ("\n\n" + content + (if HasSuffix(content, "\n") then "" else "\n"))
  {
    var end := if HasSuffix(content, "\n") then "" else "\n";
    Regroup(DASHES, "\n", yaml, DASHES, "\n\n", content, end);
    assert DASHES + "\n" == "---\n" && DASHES + "\n\n" == "---\n\n";
  }

  lemma Regroup(a: string, b: string, c: string, d: string, e: string, f: string, g: string)
    ensures (a + b) + c + (d + e) + f + g == a + (b + c + d + (e + f + g))
  {
  }

  /** Up to the closing dashes, dashes occur exactly where they occur in the YAML. */
  lemma DashesBefore(yaml: string, rest: string, j: int)
    requires HasSuffix(yaml, "\n") && 0 <= j < 1 + |yaml|
    ensures OccursAt("\n" + yaml + DASHES + rest, DASHES, j) <==> OccursAt(yaml, DASHES, j - 1)
  {
    var t := "\n" + yaml + DASHES + rest;
    assert t[|yaml|] == '\n' && t[0] == '\n';
    assert t[j..j + 3][0] == t[j] && t[j..j + 3][1] == t[j + 1] && t[j..j + 3][2] == t[j + 2];
    if 1 <= j && j + 3 <= 1 + |yaml| { assert t[j..j + 3] == yaml[j - 1..j + 2]; }
  }

  lemma AllDashesBefore(yaml: string, rest: string)
    requires HasSuffix(yaml, "\n")
    ensures var t := "\n" + yaml + DASHES + rest;
      && OccursAt(t, DASHES, 1 + |yaml|)
      && forall j :: 0 <= j < 1 + |yaml| ==> (OccursAt(t, DASHES, j) <==> OccursAt(yaml, DASHES, j - 1))
  {
    var t := "\n" + yaml + DASHES + rest;
    forall j | 0 <= j < 1 + |yaml| ensures OccursAt(t, DASHES, j) <==> OccursAt(yaml, DASHES, j - 1) {
      DashesBefore(yaml, rest, j);
    }
    assert t[1 + |yaml|..1 + |yaml| + 3] == DASHES;
  }

  /** The first dashes are the closing ones, exactly if the YAML has none. */
  lemma ClosingDashes(yaml: string, rest: string)
    requires HasSuffix(yaml, "\n")
    ensures var t, n := "\n" + yaml + DASHES + rest, 1 + |yaml|;
      && (Contains(yaml, DASHES) ==> 0 <= IndexOf(t, DASHES) < n)
      && (!Contains(yaml, DASHES) ==> IndexOf(t, DASHES) == n && t[..n] == "\n" + yaml && t[n + 3..] == rest)
  {
    var t, n := "\n" + yaml + DASHES + rest, 1 + |yaml|;
    AllDashesBefore(yaml, rest);
    if Contains(yaml, DASHES) {
      var k :| 0 <= k <= |yaml| && OccursAt(yaml, DASHES, k);
      IndexOfMeaning(t, DASHES);
      assert OccursAt(t, DASHES, k + 1);
    } else {
      IndexOfUnique(t, DASHES, n);
    }
  }

  /**
   * The parser gets back exactly a newline and the YAML that was written, for every content, if and only if
   * the YAML itself contains no dashes; and then the content comes back trimmed.
   */
  lemma RenderThenSplit(yaml: string, content: string)
    requires HasSuffix(yaml, "\n")
    ensures Split(Rendered(yaml, content)).yaml == Some("\n" + yaml) <==> !Contains(yaml, DASHES)
    ensures !Contains(yaml, DASHES) ==> Split(Rendered(yaml, content)).content == TrimSpace(content)
  {
    TailOf(yaml, content);
    ClosingDashes(yaml, "\n\n" + content + (if HasSuffix(content, "\n") then "" else "\n"));
    ContentTrims(content);
  }

  /** Dashes inside the YAML cut it at their first occurrence. */
  lemma CutAtDashes(yaml: string, content: string, i: nat)
    requires HasSuffix(yaml, "\n") && OccursAt(yaml, DASHES, i) && forall j :: 0 <= j < i ==> !OccursAt(yaml, DASHES, j)
    ensures Split(Rendered(yaml, content)).yaml == Some("\n" + yaml[..i])
  {
    TailOf(yaml, content);
    FirstDashes(yaml, "\n\n" + content + (if HasSuffix(content, "\n") then "" else "\n"), i);
  }

  lemma FirstDashes(yaml: string, rest: string, i: nat)
    requires HasSuffix(yaml, "\n") && OccursAt(yaml, DASHES, i) && forall j :: 0 <= j < i ==> !OccursAt(yaml, DASHES, j)
    ensures var t := "\n" + yaml + DASHES + rest;
      IndexOf(t, DASHES) == i + 1 && i < |yaml| && t[..i + 1] == "\n" + yaml[..i]
  {
    var t := "\n" + yaml + DASHES + rest;
    AllDashesBefore(yaml, rest);
    assert OccursAt(yaml, DASHES, i + 1 - 1);
    IndexOfUnique(t, DASHES, i + 1);
    assert |t| > i + 1 && |yaml| > i;
    assert t[..i + 1] == "\n" + yaml[..i];
  }

  lemma ContentTrims(content: string)
    ensures TrimSpace("\n\n" + content + (if HasSuffix(content, "\n") then "" else "\n")) == TrimSpace(content)
  {
    assert "\n\n" + content + "" == "\n" + ("\n" + content);
    assert "\n\n" + content + "\n" == "\n" + ("\n" + (content + "\n"));
    TrimLeading("\n" + content);
    TrimLeading(content);
    TrimLeading("\n" + (content + "\n"));
    TrimLeading(content + "\n");
    TrimTrailing(content);
  }

  /** Writing back what was read, with the same YAML, reads the same again. */
  lemma SecondRoundChangesNothing(yaml: string, content: string)
    requires HasSuffix(yaml, "\n") && !Contains(yaml, DASHES)
    ensures Split(Rendered(yaml, Split(Rendered(yaml, content)).content)) == Split(Rendered(yaml, content))
  {
    RenderThenSplit(yaml, content);
    RenderThenSplit(yaml, TrimSpace(content));
    TrimSpaceTrims(content);
  }
}
