/** UTF-8 as sections 3 and 4 of RFC 3629 define it. */
module Utf8 {
  type Byte = b: int | 0 <= b < 256

  predicate Continues(b: Byte) {
    0x80 <= b <= 0xBF
  }

  predicate TwoBytes(s: seq<Byte>) {
    |s| >= 2 && 0xC2 <= s[0] <= 0xDF && Continues(s[1])
  }

  predicate ThreeBytes(s: seq<Byte>) {
    && |s| >= 3 && 0xE0 <= s[0] <= 0xEF && Continues(s[1]) && Continues(s[2])
    && (s[0] == 0xE0 ==> 0xA0 <= s[1]) && (s[0] == 0xED ==> s[1] <= 0x9F)
  }

  predicate FourBytes(s: seq<Byte>) {
    && |s| >= 4 && 0xF0 <= s[0] <= 0xF4 && Continues(s[1]) && Continues(s[2]) && Continues(s[3])
    && (s[0] == 0xF0 ==> 0x90 <= s[1]) && (s[0] == 0xF4 ==> s[1] <= 0x8F)
  }

  /** The length of the character at the start, or 0 if there is none (section 4). */
  function RuneLen(s: seq<Byte>): nat {
    if |s| >= 1 && s[0] <= 0x7F then 1
    else if TwoBytes(s) then 2
    else if ThreeBytes(s) then 3
    else if FourBytes(s) then 4
    else 0
  }

  lemma RuneLenFits(s: seq<Byte>)
    ensures RuneLen(s) <= 4 && RuneLen(s) <= |s|
  {
  }

  /** `utf8.Valid`. */
  predicate Valid(s: seq<Byte>) {
    s == [] || (RuneLen(s) > 0 && Valid(s[RuneLen(s)..]))
  }

  // ---------- The same set, by encoding ----------

  predicate Scalar(c: int) {
    0 <= c <= 0x10FFFF && !(0xD800 <= c <= 0xDFFF)
  }

  /** The octets of one character (section 3). */
  function EncodeRune(c: int): (s: seq<Byte>)
    requires Scalar(c)
    ensures 1 <= |s| <= 4
  {
    if c < 0x80 then [c]
    else if c < 0x800 then [0xC0 + c / 64, 0x80 + c % 64]
    else if c < 0x10000 then [0xE0 + c / 4096, 0x80 + c / 64 % 64, 0x80 + c % 64]
    else [0xF0 + c / 262144, 0x80 + c / 4096 % 64, 0x80 + c / 64 % 64, 0x80 + c % 64]
  }

  function Encode(text: seq<int>): seq<Byte>
    requires forall i :: 0 <= i < |text| ==> Scalar(text[i])
  {
    if text == [] then [] else EncodeRune(text[0]) + Encode(text[1..])
  }

  lemma EncodedRune(c: int, rest: seq<Byte>)
    requires Scalar(c)
    ensures RuneLen(EncodeRune(c) + rest) == |EncodeRune(c)|
  {
    var s := EncodeRune(c);
    assert forall i :: 0 <= i < |s| ==> (s + rest)[i] == s[i];
  }

  /** The bits of a character, six at a time. */
  lemma Sextets(q: int, a: int, b: int, d: int)
    requires 0 <= q && 0 <= a < 64 && 0 <= b < 64 && 0 <= d < 64
    ensures var c := q * 262144 + a * 4096 + b * 64 + d;
      c % 64 == d && c / 64 % 64 == b && c / 4096 % 64 == a && c / 4096 == q * 64 + a && c / 262144 == q
  {
    var c := q * 262144 + a * 4096 + b * 64 + d;
    assert c / 64 == q * 4096 + a * 64 + b;
    assert c / 4096 == q * 64 + a;
  }

  lemma DecodedRune(s: seq<Byte>) returns (c: int)
    requires RuneLen(s) > 0
    ensures Scalar(c) && EncodeRune(c) == s[..RuneLen(s)]
  {
    var n := RuneLen(s);
    var lead: int := s[0];
    if n == 1 {
      c := lead;
    } else if n == 2 {
      c := TwoOf(lead, s[1]);
    } else if n == 3 {
      c := ThreeOf(lead, s[1], s[2]);
    } else {
      c := FourOf(lead, s[1], s[2], s[3]);
    }
  }

  lemma TwoOf(b0: int, b1: int) returns (c: int)
    requires 0xC2 <= b0 <= 0xDF && 0x80 <= b1 <= 0xBF
    ensures Scalar(c) && 0x80 <= c < 0x800 && EncodeRune(c) == [b0, b1]
  {
    c := (b0 - 0xC0) * 64 + (b1 - 0x80);
  }

  lemma ThreeOf(b0: int, b1: int, b2: int) returns (c: int)
    requires 0xE0 <= b0 <= 0xEF && 0x80 <= b1 <= 0xBF && 0x80 <= b2 <= 0xBF
    requires (b0 == 0xE0 ==> 0xA0 <= b1) && (b0 == 0xED ==> b1 <= 0x9F)
    ensures Scalar(c) && EncodeRune(c) == [b0, b1, b2]
  {
    c := (b0 - 0xE0) * 4096 + (b1 - 0x80) * 64 + (b2 - 0x80);
    Sextets(0, b0 - 0xE0, b1 - 0x80, b2 - 0x80);
  }

  lemma FourOf(b0: int, b1: int, b2: int, b3: int) returns (c: int)
    requires 0xF0 <= b0 <= 0xF4 && 0x80 <= b1 <= 0xBF && 0x80 <= b2 <= 0xBF && 0x80 <= b3 <= 0xBF
    requires (b0 == 0xF0 ==> 0x90 <= b1) && (b0 == 0xF4 ==> b1 <= 0x8F)
    ensures Scalar(c) && EncodeRune(c) == [b0, b1, b2, b3]
  {
    c := (b0 - 0xF0) * 262144 + (b1 - 0x80) * 4096 + (b2 - 0x80) * 64 + (b3 - 0x80);
    Sextets(b0 - 0xF0, b1 - 0x80, b2 - 0x80, b3 - 0x80);
  }

  lemma {:induction false} EncodedValid(text: seq<int>)
    requires forall i :: 0 <= i < |text| ==> Scalar(text[i])
    ensures Valid(Encode(text))
  {
    if text != [] {
      var rest := Encode(text[1..]);
      EncodedValid(text[1..]);
      EncodedRune(text[0], rest);
      assert Encode(text)[|EncodeRune(text[0])|..] == rest;
    }
  }

  lemma {:induction false} ValidDecodes(s: seq<Byte>) returns (text: seq<int>)
    requires Valid(s)
    ensures (forall i :: 0 <= i < |text| ==> Scalar(text[i])) && Encode(text) == s
  {
    if s == [] {
      text := [];
    } else {
      var c := DecodedRune(s);
      var rest := ValidDecodes(s[RuneLen(s)..]);
      text := [c] + rest;
      assert text[1..] == rest && s == s[..RuneLen(s)] + s[RuneLen(s)..];
    }
  }

  /** A byte sequence is valid exactly if it is the encoding of some scalar values. */
  lemma ValidIffEncoding(s: seq<Byte>)
    ensures Valid(s) <==> exists text :: (forall i :: 0 <= i < |text| ==> Scalar(text[i])) && Encode(text) == s
  {
    if Valid(s) {
      var text := ValidDecodes(s);
    }
    forall text | (forall i :: 0 <= i < |text| ==> Scalar(text[i])) && Encode(text) == s ensures Valid(s) {
      EncodedValid(text);
    }
  }

  // ---------- Boundaries ----------

  /** A character at the start is settled by its own bytes. */
  lemma RuneLenPrefix(s: seq<Byte>, t: seq<Byte>)
    requires RuneLen(s) > 0
    ensures RuneLen(s + t) == RuneLen(s)
  {
    assert forall i :: 0 <= i < |s| ==> (s + t)[i] == s[i];
  }

  /** Two pieces of which the first is valid: the whole is valid exactly if the second is. */
  lemma {:induction false} ValidConcat(s: seq<Byte>, t: seq<Byte>)
    requires Valid(s)
    ensures Valid(s + t) <==> Valid(t)
  {
    if s == [] {
      assert s + t == t;
    } else {
      RuneLenPrefix(s, t);
      ValidConcat(s[RuneLen(s)..], t);
      assert (s + t)[RuneLen(s)..] == s[RuneLen(s)..] + t;
    }
  }

  /** In valid text, one of any four consecutive positions is a boundary. */
  lemma {:induction false} BoundaryNear(s: seq<Byte>, n: nat) returns (k: nat)
    requires Valid(s) && n <= |s|
    ensures k <= n < k + 4 && Valid(s[..k])
  {
    if n == 0 || RuneLen(s) > n {
      k := 0;
    } else {
      var r := RuneLen(s);
      var j := BoundaryNear(s[r..], n - r);
      k := r + j;
      assert s[..k] == s[..r] + s[r..][..j];
      FirstRune(s);
      ValidConcat(s[..r], s[r..][..j]);
    }
  }

  lemma FirstRune(s: seq<Byte>)
    requires RuneLen(s) > 0
    ensures Valid(s[..RuneLen(s)]) && RuneLen(s[..RuneLen(s)]) == RuneLen(s)
  {
    var r := s[..RuneLen(s)];
    assert forall i :: 0 <= i < |r| ==> r[i] == s[i];
    assert r[|r|..] == [];
  }
}
