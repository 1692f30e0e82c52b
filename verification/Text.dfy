/** Strings as the Go standard library treats them, as far as the model needs them. */
module Text {
  // ---------- White space ----------

  /** The Unicode White_Space set, which `strings.TrimSpace` removes. */
  predicate IsSpace(c: char) {
    || '\t' <= c <= '\r' || c == ' ' || c == '\U{85}' || c == '\U{A0}' || c == '\U{1680}'
    || '\U{2000}' <= c <= '\U{200A}' || c == '\U{2028}' || c == '\U{2029}' || c == '\U{202F}'
    || c == '\U{205F}' || c == '\U{3000}'
  }

  /** Nothing but white space. */
  predicate Blank(s: string) {
    forall i :: 0 <= i < |s| ==> IsSpace(s[i])
  }

  function TrimLeft(s: string): string {
    if |s| > 0 && IsSpace(s[0]) then TrimLeft(s[1..]) else s
  }

  function TrimRight(s: string): string {
    if |s| > 0 && IsSpace(s[|s| - 1]) then TrimRight(s[..|s| - 1]) else s
  }

  function TrimSpace(s: string): string {
    TrimRight(TrimLeft(s))
  }

  // ---------- Decimal numbers ----------

  predicate IsDigit(c: char) { '0' <= c <= '9' }

  function DigitChar(d: nat): char
    requires d < 10
  {
    '0' + d as char
  }

  function DigitValue(c: char): nat
    requires IsDigit(c)
  {
    c as int - '0' as int
  }

  /** `strconv.Itoa` on a non-negative number. */
  function Itoa(n: nat): (s: string)
    ensures |s| > 0 && forall i :: 0 <= i < |s| ==> IsDigit(s[i])
  {
    if n < 10 then [DigitChar(n)] else Itoa(n / 10) + [DigitChar(n % 10)]
  }

  /** The value of a digit string, most significant digit first. */
  function DigitsValue(s: string): nat
    requires forall i :: 0 <= i < |s| ==> IsDigit(s[i])
  {
    if s == [] then 0 else DigitsValue(s[..|s| - 1]) * 10 + DigitValue(s[|s| - 1])
  }

  lemma {:induction false} ItoaRoundTrip(n: nat)
    ensures DigitsValue(Itoa(n)) == n
  {
    if n >= 10 {
      ItoaRoundTrip(n / 10);
      assert Itoa(n)[..|Itoa(n)| - 1] == Itoa(n / 10);
    } else {
      assert Itoa(n)[..0] == [];
    }
  }

  lemma ItoaInjective(m: nat, n: nat)
    requires Itoa(m) == Itoa(n)
    ensures m == n
  {
    ItoaRoundTrip(m);
    ItoaRoundTrip(n);
  }

  // ---------- Splitting ----------

  /** `strings.Split` on a one-byte separator. */
  function SplitOn(s: string, sep: char): (parts: seq<string>)
    ensures |parts| > 0
  {
    if s == [] then [[]]
    else
      var rest := SplitOn(s[1..], sep);
      if s[0] == sep then [[]] + rest else [[s[0]] + rest[0]] + rest[1..]
  }

  function Join(parts: seq<string>, sep: char): string {
    if parts == [] then []
    else if |parts| == 1 then parts[0]
    else parts[0] + [sep] + Join(parts[1..], sep)
  }

  lemma {:induction false} SplitWord(w: string, sep: char)
    requires sep !in w
    ensures SplitOn(w, sep) == [w]
  {
    if w != [] {
      SplitWord(w[1..], sep);
      assert w == [w[0]] + w[1..];
    }
  }

  lemma {:induction false} SplitFirst(w: string, rest: string, sep: char)
    requires sep !in w
    ensures SplitOn(w + [sep] + rest, sep) == [w] + SplitOn(rest, sep)
  {
    var s := w + [sep] + rest;
    if w == [] {
      assert s[1..] == rest;
    } else {
      SplitFirst(w[1..], rest, sep);
      assert s[1..] == w[1..] + [sep] + rest;
      assert w == [w[0]] + w[1..];
    }
  }

  lemma {:induction false} SplitConcat(a: string, b: string, sep: char)
    ensures SplitOn(a + [sep] + b, sep) == SplitOn(a, sep) + SplitOn(b, sep)
  {
    if a == [] {
      assert [] + [sep] + b == [sep] + b;
      SplitCons(sep, b, sep);
    } else {
      SplitConcat(a[1..], b, sep);
      assert a == [a[0]] + a[1..] && a + [sep] + b == [a[0]] + (a[1..] + [sep] + b);
      SplitCons(a[0], a[1..], sep);
      SplitCons(a[0], a[1..] + [sep] + b, sep);
      ConsConcat(a[0], SplitOn(a[1..], sep), SplitOn(b, sep), sep);
    }
  }

  /** Putting a letter in front of the first part, and more parts after the last, in either order. */
  lemma ConsConcat(c: char, p: seq<string>, q: seq<string>, sep: char)
    requires |p| > 0
    ensures (if c == sep then [[]] + (p + q) else [[c] + (p + q)[0]] + (p + q)[1..])
            == (if c == sep then [[]] + p else [[c] + p[0]] + p[1..]) + q
  {
  }

  lemma SplitCons(c: char, s: string, sep: char)
    ensures var rest := SplitOn(s, sep);
      SplitOn([c] + s, sep) == if c == sep then [[]] + rest else [[c] + rest[0]] + rest[1..]
  {
    assert ([c] + s)[1..] == s;
  }

  /** A word at the end joins the last part. */
  lemma {:induction false} SplitAppend(a: string, w: string, sep: char)
    requires sep !in w
    ensures var p := SplitOn(a, sep); SplitOn(a + w, sep) == p[..|p| - 1] + [p[|p| - 1] + w]
  {
    if a == [] {
      SplitWord(w, sep);
      assert a + w == w && [] + w == w;
    } else {
      SplitAppend(a[1..], w, sep);
      assert a == [a[0]] + a[1..] && a + w == [a[0]] + (a[1..] + w);
      SplitCons(a[0], a[1..], sep);
      SplitCons(a[0], a[1..] + w, sep);
      AppendCons(a[0], SplitOn(a[1..], sep), w, sep);
    }
  }

  /** Putting a letter in front of the first part, and a word after the last one, in either order. */
  lemma AppendCons(c: char, rest: seq<string>, w: string, sep: char)
    requires |rest| > 0
    ensures var q := rest[..|rest| - 1] + [rest[|rest| - 1] + w];
      var p := if c == sep then [[]] + rest else [[c] + rest[0]] + rest[1..];
      p[..|p| - 1] + [p[|p| - 1] + w] == if c == sep then [[]] + q else [[c] + q[0]] + q[1..]
  {
    if c != sep && |rest| == 1 { assert [c] + rest[0] + w == [c] + (rest[0] + w); }
  }

  /** Splitting undoes joining when no part contains the separator. */
  lemma {:induction false} SplitJoin(parts: seq<string>, sep: char)
    requires |parts| > 0 && forall p :: p in parts ==> sep !in p
    ensures SplitOn(Join(parts, sep), sep) == parts
  {
    if |parts| == 1 {
      SplitWord(parts[0], sep);
    } else {
      SplitJoin(parts[1..], sep);
      SplitFirst(parts[0], Join(parts[1..], sep), sep);
    }
  }

  lemma {:induction false} JoinSplit(s: string, sep: char)
    ensures Join(SplitOn(s, sep), sep) == s
    ensures forall p :: p in SplitOn(s, sep) ==> sep !in p
  {
    if s != [] {
      JoinSplit(s[1..], sep);
      var rest := SplitOn(s[1..], sep);
      if s[0] == sep {
        assert ([[]] + rest)[1..] == rest;
        assert s == [] + [sep] + s[1..];
      } else {
        JoinLonger(s[0], rest, sep);
        assert s == [s[0]] + s[1..];
      }
    }
  }

  /** Joining after putting one more letter in front of the first part. */
  lemma JoinLonger(c: char, parts: seq<string>, sep: char)
    requires |parts| > 0
    ensures Join([[c] + parts[0]] + parts[1..], sep) == [c] + Join(parts, sep)
  {
    var longer := [[c] + parts[0]] + parts[1..];
    assert longer[1..] == parts[1..];
    if |parts| > 1 {
      assert [c] + parts[0] + [sep] + Join(parts[1..], sep) ==
        [c] + (parts[0] + [sep] + Join(parts[1..], sep));
    }
  }

  // ---------- Trimming ----------

  /** Nothing to trim at either edge. */
  predicate Trimmed(s: string) {
    |s| > 0 ==> !IsSpace(s[0]) && !IsSpace(s[|s| - 1])
  }

  lemma {:induction false} TrimLeftShape(s: string)
    ensures |TrimLeft(s)| <= |s| && TrimLeft(s) == s[|s| - |TrimLeft(s)|..]
    ensures |TrimLeft(s)| > 0 ==> !IsSpace(TrimLeft(s)[0])
  {
    if |s| > 0 && IsSpace(s[0]) { TrimLeftShape(s[1..]); }
  }

  lemma {:induction false} TrimRightShape(s: string)
    ensures |TrimRight(s)| <= |s| && TrimRight(s) == s[..|TrimRight(s)|]
    ensures |TrimRight(s)| > 0 ==> !IsSpace(TrimRight(s)[|TrimRight(s)| - 1])
  {
    if |s| > 0 && IsSpace(s[|s| - 1]) { TrimRightShape(s[..|s| - 1]); }
  }

  lemma TrimmedFixed(s: string)
    requires Trimmed(s)
    ensures TrimSpace(s) == s
  {
  }

  lemma TrimSpaceTrims(s: string)
    ensures Trimmed(TrimSpace(s)) && TrimSpace(TrimSpace(s)) == TrimSpace(s)
  {
    TrimLeftShape(s);
    TrimRightShape(TrimLeft(s));
  }

  lemma {:induction false} TrimTrailing(s: string)
    ensures TrimSpace(s + "\n") == TrimSpace(s)
  {
    if s != [] && IsSpace(s[0]) {
      assert (s + "\n")[1..] == s[1..] + "\n";
      TrimTrailing(s[1..]);
    } else if s == [] {
      assert (s + "\n")[1..] == [];
    } else {
      assert (s + "\n")[..|s|] == s;
    }
  }

  lemma TrimLeading(s: string)
    ensures TrimSpace("\n" + s) == TrimSpace(s)
  {
    assert ("\n" + s)[1..] == s;
  }

  lemma DigitsTrimmed(n: nat)
    ensures Trimmed(Itoa(n))
  {
    assert IsDigit(Itoa(n)[0]) && IsDigit(Itoa(n)[|Itoa(n)| - 1]);
  }

  // ---------- Searching ----------

  predicate OccursAt(s: string, sub: string, i: int) {
    0 <= i <= |s| - |sub| && s[i..i + |sub|] == sub
  }

  predicate Contains(s: string, sub: string) {
    exists i :: 0 <= i <= |s| && OccursAt(s, sub, i)
  }

  /** `strings.ReplaceAll`: non-overlapping occurrences, from the left. */
  function ReplaceAll(s: string, find: string, with: string): string
    requires |find| > 0
  {
    if |s| < |find| then s
    else if s[..|find|] == find then with + ReplaceAll(s[|find|..], find, with)
    else [s[0]] + ReplaceAll(s[1..], find, with)
  }

  lemma {:induction false} ReplaceNothing(s: string, find: string, with: string)
    requires |find| > 0 && !Contains(s, find)
    ensures ReplaceAll(s, find, with) == s
  {
    if |s| >= |find| {
      assert !OccursAt(s, find, 0);
      forall i | 0 <= i <= |s[1..]| ensures !OccursAt(s[1..], find, i) {
        if OccursAt(s[1..], find, i) { assert OccursAt(s, find, i + 1); }
      }
      ReplaceNothing(s[1..], find, with);
    }
  }

  lemma OccursLater(s: string, sub: string)
    requires |s| > 0
    ensures forall j :: 0 <= j ==> (OccursAt(s[1..], sub, j) <==> OccursAt(s, sub, j + 1))
  {
    forall j | 0 <= j ensures OccursAt(s[1..], sub, j) <==> OccursAt(s, sub, j + 1) {
      if j + |sub| <= |s| - 1 { assert s[1..][j..j + |sub|] == s[j + 1..j + 1 + |sub|]; }
    }
  }

  lemma ReplaceHere(s: string, find: string, with: string)
    requires |find| > 0 && OccursAt(s, find, 0)
    ensures ReplaceAll(s, find, with) == with + ReplaceAll(s[|find|..], find, with)
  {
  }

  lemma ReplaceLater(s: string, find: string, with: string)
    requires |find| > 0 && |s| > 0 && !OccursAt(s, find, 0)
    ensures ReplaceAll(s, find, with) == [s[0]] + ReplaceAll(s[1..], find, with)
  {
  }

  /** The one occurrence, at `i`, is replaced and everything around it stays. */
  lemma {:induction false} ReplaceOnce(s: string, find: string, with: string, i: nat)
    requires |find| > 0 && OccursAt(s, find, i)
    requires forall j :: 0 <= j <= |s| && OccursAt(s, find, j) ==> j == i
    requires !Contains(s[i + |find|..], find)
    ensures ReplaceAll(s, find, with) == s[..i] + with + s[i + |find|..]
  {
    if i == 0 {
      ReplaceNothing(s[|find|..], find, with);
      ReplaceHere(s, find, with);
    } else {
      OccursLater(s, find);
      assert s[1..][i - 1 + |find|..] == s[i + |find|..];
      ReplaceOnce(s[1..], find, with, i - 1);
      ReplaceLater(s, find, with);
      assert s[..i] == [s[0]] + s[1..][..i - 1];
    }
  }

  /** `strings.Index`: the first occurrence, or -1. */
  function IndexOf(s: string, sub: string): int
    requires |sub| > 0
  {
    if |s| < |sub| then -1
    else if s[..|sub|] == sub then 0
    else var i := IndexOf(s[1..], sub); if i < 0 then -1 else i + 1
  }

  lemma {:induction false} IndexOfMeaning(s: string, sub: string)
    requires |sub| > 0
    ensures var i := IndexOf(s, sub);
      if i < 0 then i == -1 && !Contains(s, sub)
      else OccursAt(s, sub, i) && forall j :: 0 <= j < i ==> !OccursAt(s, sub, j)
  {
    if |s| < |sub| {
      assert forall j :: !OccursAt(s, sub, j);
    } else if s[..|sub|] == sub {
      assert OccursAt(s, sub, 0);
    } else {
      IndexOfMeaning(s[1..], sub);
      IndexOneLater(s, sub, IndexOf(s[1..], sub));
    }
  }

  /** What holds of the first occurrence in the rest of a string that does not start with the pattern. */
  lemma IndexOneLater(s: string, sub: string, i: int)
    requires |s| > 0 && |sub| > 0 && !OccursAt(s, sub, 0)
    requires if i < 0 then i == -1 && !Contains(s[1..], sub)
             else OccursAt(s[1..], sub, i) && forall j :: 0 <= j < i ==> !OccursAt(s[1..], sub, j)
    ensures if i < 0 then !Contains(s, sub)
            else OccursAt(s, sub, i + 1) && forall j :: 0 <= j < i + 1 ==> !OccursAt(s, sub, j)
  {
    OccursLater(s, sub);
    forall j | 0 <= j ensures j > 0 ==> (OccursAt(s, sub, j) <==> OccursAt(s[1..], sub, j - 1)) {
      if j > 0 { assert OccursAt(s[1..], sub, j - 1) <==> OccursAt(s, sub, j - 1 + 1); }
    }
  }

  /** The first occurrence is known once one is found with none before it. */
  lemma IndexOfUnique(s: string, sub: string, i: nat)
    requires |sub| > 0 && OccursAt(s, sub, i) && forall j :: 0 <= j < i ==> !OccursAt(s, sub, j)
    ensures IndexOf(s, sub) == i
  {
    IndexOfMeaning(s, sub);
  }

  predicate HasPrefix(s: string, p: string) { p <= s }

  predicate HasSuffix(s: string, p: string) {
    |p| <= |s| && s[|s| - |p|..] == p
  }
}
