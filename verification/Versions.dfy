/** Version comparison as the auditor does it: dotted numbers, missing parts counting as zero. */
module Versions {
  import opened Text

  // ---------- Reading a version ----------

  /** How many leading characters are digits. */
  function DigitRun(p: string): (n: nat)
    ensures n <= |p| && forall i :: 0 <= i < n ==> IsDigit(p[i])
    ensures n < |p| ==> !IsDigit(p[n])
  {
    if p != [] && IsDigit(p[0]) then 1 + DigitRun(p[1..]) else 0
  }

  /** A part counts as the number it starts with, zero if it starts with none. */
  function PartValue(p: string): nat {
    DigitsValue(p[..DigitRun(p)])
  }

  function PartValues(parts: seq<string>): (r: seq<nat>)
    ensures |r| == |parts| && forall i :: 0 <= i < |parts| ==> r[i] == PartValue(parts[i])
  {
    seq(|parts|, i requires 0 <= i < |parts| => PartValue(parts[i]))
  }

  function VersionParts(v: string): seq<nat> {
    PartValues(SplitOn(TrimSpace(v), '.'))
  }

  method SplitVersionParts(v: string) returns (out: seq<nat>)
    ensures out == VersionParts(v)
  {
    var parts := SplitOn(TrimSpace(v), '.');
    out := [];
    for i := 0 to |parts|
      invariant out == PartValues(parts)[..i]
    {
      var part := parts[i];
      var n := 0;
      var j := 0;
      while j < |part| && IsDigit(part[j])
        invariant j <= DigitRun(part) && n == DigitsValue(part[..j])
      {
        assert part[..j + 1][..j] == part[..j];
        n := n * 10 + DigitValue(part[j]);
        j := j + 1;
      }
      out := out + [n];
    }
  }

  // ---------- The order ----------

  function At(p: seq<nat>, i: nat): nat {
    if i < |p| then p[i] else 0
  }

  predicate AgreeTo(p: seq<nat>, q: seq<nat>, i: nat) {
    forall j: nat :: j < i ==> At(p, j) == At(q, j)
  }

  ghost predicate BelowAt(p: seq<nat>, q: seq<nat>, i: nat) {
    AgreeTo(p, q, i) && At(p, i) < At(q, i)
  }

  /** At the first part where they differ, `p` has the smaller number. */
  ghost predicate Below(p: seq<nat>, q: seq<nat>) {
    exists i: nat :: BelowAt(p, q, i)
  }

  ghost predicate Same(p: seq<nat>, q: seq<nat>) {
    forall i: nat :: At(p, i) == At(q, i)
  }

  function CompareFrom(p: seq<nat>, q: seq<nat>, i: nat): int
    decreases |p| + |q| - i
  {
    if i >= |p| && i >= |q| then 0
    else if At(p, i) < At(q, i) then -1
    else if At(p, i) > At(q, i) then 1
    else CompareFrom(p, q, i + 1)
  }

  function Compare(a: string, b: string): int {
    CompareFrom(VersionParts(a), VersionParts(b), 0)
  }

  method CompareVersions(a: string, b: string) returns (c: int)
    ensures c == Compare(a, b)
    ensures c == -1 <==> Below(VersionParts(a), VersionParts(b))
    ensures c == 1 <==> Below(VersionParts(b), VersionParts(a))
    ensures c == 0 <==> Same(VersionParts(a), VersionParts(b))
  {
    var ap := SplitVersionParts(a);
    var bp := SplitVersionParts(b);
    CompareMeaning(a, b);
    var n := if |bp| > |ap| then |bp| else |ap|;
    var i := 0;
    while i < n
      invariant 0 <= i <= n && CompareFrom(ap, bp, 0) == CompareFrom(ap, bp, i)
    {
      var ai, bi := 0, 0;
      if i < |ap| { ai := ap[i]; }
      if i < |bp| { bi := bp[i]; }
      if ai < bi { return -1; }
      if ai > bi { return 1; }
      i := i + 1;
    }
    return 0;
  }

  lemma {:induction false} CompareFromMeaning(p: seq<nat>, q: seq<nat>, i: nat)
    requires AgreeTo(p, q, i)
    ensures CompareFrom(p, q, i) in {-1, 0, 1}
    ensures CompareFrom(p, q, i) == -1 ==> Below(p, q)
    ensures CompareFrom(p, q, i) == 1 ==> Below(q, p)
    ensures CompareFrom(p, q, i) == 0 ==> Same(p, q)
    decreases |p| + |q| - i
  {
    if i >= |p| && i >= |q| {
    } else if At(p, i) < At(q, i) {
      assert BelowAt(p, q, i);
    } else if At(p, i) > At(q, i) {
      assert BelowAt(q, p, i);
    } else {
      CompareFromMeaning(p, q, i + 1);
    }
  }

  /** Exactly one of the three relations holds of any two versions. */
  lemma Trichotomy(p: seq<nat>, q: seq<nat>)
    ensures !(Below(p, q) && Below(q, p)) && !(Below(p, q) && Same(p, q)) && !(Below(q, p) && Same(p, q))
  {
    if Below(p, q) {
      var i: nat :| BelowAt(p, q, i);
      forall j: nat ensures !BelowAt(q, p, j) {
        if j > i { assert At(p, i) != At(q, i); }
      }
    }
  }

  /** The three results mean below, same and above, whatever the number of parts. */
  lemma CompareMeaning(a: string, b: string)
    ensures Compare(a, b) == -1 <==> Below(VersionParts(a), VersionParts(b))
    ensures Compare(a, b) == 1 <==> Below(VersionParts(b), VersionParts(a))
    ensures Compare(a, b) == 0 <==> Same(VersionParts(a), VersionParts(b))
  {
    CompareFromMeaning(VersionParts(a), VersionParts(b), 0);
    Trichotomy(VersionParts(a), VersionParts(b));
  }

  lemma BelowTransitive(p: seq<nat>, q: seq<nat>, r: seq<nat>)
    requires Below(p, q) && Below(q, r)
    ensures Below(p, r)
  {
    var i: nat :| BelowAt(p, q, i);
    var j: nat :| BelowAt(q, r, j);
    var k := if i < j then i else j;
    assert BelowAt(p, r, k);
  }

  lemma BelowSame(p: seq<nat>, q: seq<nat>, p': seq<nat>, q': seq<nat>)
    requires Below(p, q) && Same(p, p') && Same(q, q')
    ensures Below(p', q')
  {
    var i: nat :| BelowAt(p, q, i);
    assert BelowAt(p', q', i);
  }

  /** A total preorder: antisymmetric in sign, and `<= 0` is transitive across different part counts. */
  lemma TotalPreorder(a: string, b: string, c: string)
    ensures Compare(a, b) == -Compare(b, a)
    ensures Compare(a, b) <= 0 && Compare(b, c) <= 0 ==> Compare(a, c) <= 0
    ensures Compare(a, b) < 0 && Compare(b, c) <= 0 ==> Compare(a, c) < 0
  {
    var p, q, r := VersionParts(a), VersionParts(b), VersionParts(c);
    CompareMeaning(a, b);
    CompareMeaning(b, a);
    CompareMeaning(b, c);
    CompareMeaning(a, c);
    CompareFromMeaning(p, q, 0);
    CompareFromMeaning(q, p, 0);
    CompareFromMeaning(q, r, 0);
    CompareFromMeaning(p, r, 0);
    if Below(p, q) && Below(q, r) { BelowTransitive(p, q, r); }
    if Below(p, q) && Same(q, r) { BelowSame(p, q, p, r); }
    if Same(p, q) && Below(q, r) { BelowSame(q, r, p, r); }
  }

  /** Trailing zero parts make no difference. */
  lemma TrailingZeros(p: seq<nat>, zeros: seq<nat>)
    requires forall i :: 0 <= i < |zeros| ==> zeros[i] == 0
    ensures Same(p, p + zeros)
  {
  }

  // ---------- Semantic Versioning ----------

  function Plain(x: nat, y: nat, z: nat): string {
    Join([Itoa(x), Itoa(y), Itoa(z)], '.')
  }

  lemma DigitsRunWhole(n: nat)
    ensures PartValue(Itoa(n)) == n
  {
    assert DigitRun(Itoa(n)) == |Itoa(n)|;
    assert Itoa(n)[..|Itoa(n)|] == Itoa(n);
    ItoaRoundTrip(n);
  }

  lemma PlainText(x: nat, y: nat, z: nat)
    ensures Plain(x, y, z) == Itoa(x) + ['.'] + (Itoa(y) + ['.'] + Itoa(z))
    ensures forall c :: c in Plain(x, y, z) ==> IsDigit(c) || c == '.'
  {
    var parts := [Itoa(x), Itoa(y), Itoa(z)];
    assert parts[1..][1..] == [Itoa(z)];
    assert Join(parts[1..][1..], '.') == Itoa(z);
    assert Join(parts[1..], '.') == Itoa(y) + ['.'] + Itoa(z);
  }

  lemma PlainTrimmed(x: nat, y: nat, z: nat)
    ensures Trimmed(Plain(x, y, z)) && TrimSpace(Plain(x, y, z)) == Plain(x, y, z)
  {
    var s := Plain(x, y, z);
    PlainText(x, y, z);
    DigitsTrimmed(x);
    DigitsTrimmed(z);
    assert s[0] == Itoa(x)[0] && s[|s| - 1] == Itoa(z)[|Itoa(z)| - 1];
    TrimmedFixed(s);
  }

  lemma PlainParts(x: nat, y: nat, z: nat)
    ensures VersionParts(Plain(x, y, z)) == [x, y, z]
  {
    var parts := [Itoa(x), Itoa(y), Itoa(z)];
    PlainTrimmed(x, y, z);
    forall p | p in parts ensures '.' !in p {
      forall i | 0 <= i < |p| ensures p[i] != '.' { assert IsDigit(p[i]); }
    }
    SplitJoin(parts, '.');
    DigitsRunWhole(x);
    DigitsRunWhole(y);
    DigitsRunWhole(z);
  }

  /** On plain X.Y.Z the order is the precedence of section 11 of Semantic Versioning 2.0.0. */
  lemma AgreesWithSemVer(x: nat, y: nat, z: nat, x': nat, y': nat, z': nat)
    ensures Compare(Plain(x, y, z), Plain(x', y', z')) < 0 <==>
              x < x' || (x == x' && (y < y' || (y == y' && z < z')))
    ensures Compare(Plain(x, y, z), Plain(x', y', z')) == 0 <==> x == x' && y == y' && z == z'
  {
    PlainParts(x, y, z);
    PlainParts(x', y', z');
    var p, q := [x, y, z], [x', y', z'];
    assert CompareFrom(p, q, 3) == 0;
    assert CompareFrom(p, q, 2) == if z < z' then -1 else if z > z' then 1 else 0;
    assert CompareFrom(p, q, 1) == if y < y' then -1 else if y > y' then 1 else CompareFrom(p, q, 2);
  }

  // ---------- Major versions ----------

  function IndexOfChar(s: string, c: char): int {
    if s == [] then -1
    else if s[0] == c then 0
    else var i := IndexOfChar(s[1..], c); if i < 0 then -1 else i + 1
  }

  lemma {:induction false} IndexOfCharBound(s: string, c: char)
    ensures -1 <= IndexOfChar(s, c) < |s| || IndexOfChar(s, c) == -1
  {
    if s != [] { IndexOfCharBound(s[1..], c); }
  }

  function MajorPart(v: string): string {
    var t := TrimSpace(v);
    var i := IndexOfChar(t, '.');
    IndexOfCharBound(t, '.');
    if i > 0 then t[..i] else t
  }

  predicate SameMajor(a: string, b: string) {
    MajorPart(a) == MajorPart(b)
  }

  lemma {:induction false} IndexAfterWord(w: string, rest: string, c: char)
    requires c !in w
    ensures IndexOfChar(w + [c] + rest, c) == |w|
  {
    var s := w + [c] + rest;
    if w != [] {
      assert s[1..] == w[1..] + [c] + rest && s[0] == w[0];
      IndexAfterWord(w[1..], rest, c);
    }
  }

  lemma {:induction false} IndexOfNone(s: string, c: char)
    requires c !in s
    ensures IndexOfChar(s, c) == -1
  {
    if s != [] { IndexOfNone(s[1..], c); }
  }

  /** The major part is what stands before the first dot; if nothing does, or there is none, it is all of it. */
  lemma MajorExactly(v: string, w: string, rest: string)
    ensures var t := TrimSpace(v);
      && (t == w + "." + rest && '.' !in w ==> MajorPart(v) == if |w| > 0 then w else t)
      && ('.' !in t ==> MajorPart(v) == t)
  {
    var t := TrimSpace(v);
    if t == w + "." + rest && '.' !in w {
      IndexAfterWord(w, rest, '.');
      assert w + "." + rest == w + ['.'] + rest && (w + "." + rest)[..|w|] == w;
    } else if '.' !in t {
      IndexOfNone(t, '.');
    }
  }

  /** Two dotted versions are of one major version exactly if they begin with the same text. */
  lemma SameMajorExactly(a: string, b: string, u: string, w: string, x: string, y: string)
    requires TrimSpace(a) == u + "." + x && TrimSpace(b) == w + "." + y
    requires u != "" && w != "" && '.' !in u && '.' !in w
    ensures SameMajor(a, b) <==> u == w
  {
    MajorExactly(a, u, x);
    MajorExactly(b, w, y);
  }

  /** The major part of a plain version is its first number. */
  lemma PlainMajor(x: nat, y: nat, z: nat)
    ensures MajorPart(Plain(x, y, z)) == Itoa(x)
  {
    var rest := Itoa(y) + "." + Itoa(z);
    PlainTrimmed(x, y, z);
    PlainText(x, y, z);
    assert rest == Itoa(y) + ['.'] + Itoa(z);
    assert '.' !in Itoa(x);
    IndexAfterWord(Itoa(x), rest, '.');
    assert (Itoa(x) + ['.'] + rest)[..|Itoa(x)|] == Itoa(x);
  }
}
