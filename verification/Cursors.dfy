/** Decimal cursors: how an offset is printed and read back. */
module Cursors {
  import opened Wrappers
  import opened Text

  const MAX_INT: int := 0x7FFF_FFFF_FFFF_FFFF

  /** The chunk size of the readers when none is asked for. */
  const DEFAULT_BYTES: nat := 0x1_0000

  /** Sixty-four kilobytes, unless a length is asked for. */
  function SizeOf(chunkBytes: int): (r: nat)
    ensures chunkBytes > 0 ==> r == chunkBytes
    ensures chunkBytes <= 0 ==> r == 64 * 1024
  {
    if chunkBytes <= 0 then DEFAULT_BYTES else chunkBytes
  }

  function Min(a: int, b: int): int {
    if a < b then a else b
  }

  datatype CursorError = NotANumber | Negative

  predicate AllDigits(s: string) {
    s != "" && forall i :: 0 <= i < |s| ==> IsDigit(s[i])
  }

  /** `strconv.Atoi` on a 64-bit platform: an optional sign, then decimal digits, within range. */
  function Atoi(s: string): Option<int> {
    var signed := |s| > 0 && (s[0] == '+' || s[0] == '-');
    var digits := if signed then s[1..] else s;
    if !AllDigits(digits) then None
    else
      var magnitude: int := DigitsValue(digits);
      var v := if signed && s[0] == '-' then -magnitude else magnitude;
      if -MAX_INT - 1 <= v <= MAX_INT then Some(v) else None
  }

  function ParseOffset(raw: string): Result<nat, CursorError> {
    var s := TrimSpace(raw);
    if s == "" then Ok(0)
    else match Atoi(s)
      case None => Err(NotANumber)
      case Some(v) => if v < 0 then Err(Negative) else Ok(v)
  }

  /** The printed offset is read back, exactly while it fits the integer type. */
  lemma OffsetRoundTrip(n: nat)
    ensures ParseOffset(Itoa(n)) == (if n <= MAX_INT then Ok(n) else Err(NotANumber))
  {
    DigitsTrimmed(n);
    TrimmedFixed(Itoa(n));
    ItoaRoundTrip(n);
    assert IsDigit(Itoa(n)[0]);
  }

  /** Which texts are numbers: digits, with a sign or without, in the range of a 64-bit integer. */
  lemma AtoiExactly(s: string)
    ensures AllDigits(s) ==>
              Atoi(s) == if DigitsValue(s) < 0x8000_0000_0000_0000 then Some(DigitsValue(s)) else None
    ensures s != "" && s[0] == '+' && AllDigits(s[1..]) ==> Atoi(s) == Atoi(s[1..])
    ensures s != "" && s[0] == '-' && AllDigits(s[1..]) ==>
              var v: int := DigitsValue(s[1..]); Atoi(s) == if v <= 0x8000_0000_0000_0000 then Some(-v) else None
    ensures Atoi(s).Some? ==> AllDigits(s) || (s != "" && (s[0] == '+' || s[0] == '-') && AllDigits(s[1..]))
  {
    if AllDigits(s) {
      assert IsDigit(s[0]);
    } else if |s| > 0 && AllDigits(s[1..]) {
      assert IsDigit(s[1..][0]);
    }
  }

  /** A cursor is a number that is not negative, with white space around it or not; an empty one is zero. */
  lemma CursorExactly(raw: string)
    ensures var s := TrimSpace(raw); var v := Atoi(s);
      && (ParseOffset(raw).Ok? <==> |s| == 0 || (v.Some? && v.value >= 0))
      && (ParseOffset(raw).Ok? ==> ParseOffset(raw).value == if |s| == 0 then 0 else v.value)
      && (ParseOffset(raw) == Err(Negative) <==> |s| > 0 && v.Some? && v.value < 0)
      && (ParseOffset(raw) == Err(NotANumber) <==> |s| > 0 && v.None?)
  {
  }
}
