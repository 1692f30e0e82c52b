/** Reading a file in base64 chunks. */
module AssetChunks {
  import opened Wrappers
  import opened Text
  import opened Cursors
  import opened Utf8

  // ---------- Base64 (section 4 of RFC 4648) ----------

  predicate Sextet(v: int) {
    0 <= v < 64
  }

  function CharOf(v: int): char
    requires Sextet(v)
  {
    if v < 26 then 'A' + v as char
    else if v < 52 then 'a' + (v - 26) as char
    else if v < 62 then '0' + (v - 52) as char
    else if v == 62 then '+' else '/'
  }

  function ValueOf(c: char): (v: Option<int>)
    ensures v.Some? ==> Sextet(v.value)
  {
    if 'A' <= c <= 'Z' then Some(c as int - 'A' as int)
    else if 'a' <= c <= 'z' then Some(c as int - 'a' as int + 26)
    else if '0' <= c <= '9' then Some(c as int - '0' as int + 52)
    else if c == '+' then Some(62)
    else if c == '/' then Some(63)
    else None
  }

  lemma ValueOfCharOf(v: int)
    requires Sextet(v)
    ensures ValueOf(CharOf(v)) == Some(v) && CharOf(v) != '='
  {
  }

  /** Three bytes to four characters; one or two left over are padded. */
  function Encode64(s: seq<Byte>): string {
    if |s| < 3 then Leftover(s) else Group(s[0], s[1], s[2]) + Encode64(s[3..])
  }

  function Leftover(s: seq<Byte>): string
    requires |s| < 3
  {
    if s == [] then ""
    else if |s| == 1 then [CharOf(s[0] / 4), CharOf(s[0] % 4 * 16), '=', '=']
    else [CharOf(s[0] / 4), CharOf(s[0] % 4 * 16 + s[1] / 16), CharOf(s[1] % 16 * 4), '=']
  }

  function Group(a: Byte, b: Byte, c: Byte): string {
    [CharOf(a / 4), CharOf(a % 4 * 16 + b / 16), CharOf(b % 16 * 4 + c / 64), CharOf(c % 64)]
  }

  /** Section 10 of RFC 4648: "foobar" and its beginnings; and the two characters that are not letters or digits. */
  lemma TestVectors()
    ensures Encode64([102]) == "Zg==" && Encode64([102, 111]) == "Zm8=" && Encode64([102, 111, 111]) == "Zm9v"
    ensures Encode64([102, 111, 111, 98, 97, 114]) == "Zm9vYmFy"
    ensures Encode64([251, 239, 190]) == "++++" && Encode64([255, 255, 255]) == "////"
  {
    var foobar: seq<Byte> := [102, 111, 111, 98, 97, 114];
    assert foobar[3..] == [98, 97, 114] && foobar[3..][3..] == [];
    forall a: Byte, b: Byte, c: Byte ensures Encode64([a, b, c]) == Group(a, b, c) {
      assert [a, b, c][3..] == [];
    }
  }

  /** What any decoder makes of it; the spare bits before padding are ignored. */
  function Decode64(t: string): Option<seq<Byte>> {
    if t == "" then Some([])
    else if |t| < 4 || ValueOf(t[0]).None? || ValueOf(t[1]).None? then None
    else
      var v0, v1 := ValueOf(t[0]).value, ValueOf(t[1]).value;
      var first: Byte := v0 * 4 + v1 / 16;
      if |t| == 4 && t[2] == '=' && t[3] == '=' then Some([first])
      else if ValueOf(t[2]).None? then None
      else
        var v2 := ValueOf(t[2]).value;
        var second: Byte := v1 % 16 * 16 + v2 / 4;
        if |t| == 4 && t[3] == '=' then Some([first, second])
        else if ValueOf(t[3]).None? then None
        else
          var third: Byte := v2 % 4 * 64 + ValueOf(t[3]).value;
          match Decode64(t[4..])
          case None => None
          case Some(rest) => Some([first, second, third] + rest)
  }

  lemma {:induction false} Base64RoundTrip(s: seq<Byte>)
    ensures Decode64(Encode64(s)) == Some(s)
  {
    if |s| < 3 {
      FewBytes(s);
    } else {
      Base64RoundTrip(s[3..]);
      ThreeMore(s);
    }
  }

  lemma FewBytes(s: seq<Byte>)
    requires |s| < 3
    ensures Decode64(Encode64(s)) == Some(s)
  {
    if |s| == 1 {
      OneByte(s[0]);
      assert s == [s[0]];
    } else if |s| == 2 {
      TwoLeft(s[0], s[1]);
      assert s == [s[0], s[1]];
    }
  }

  lemma ThreeMore(s: seq<Byte>)
    requires |s| >= 3 && Decode64(Encode64(s[3..])) == Some(s[3..])
    ensures Decode64(Encode64(s)) == Some(s)
  {
    GroupFirst(s);
    GroupRead(s, Encode64(s), Encode64(s[3..]));
  }

  lemma GroupRead(s: seq<Byte>, t: string, rest: string)
    requires |s| >= 3 && t == Group(s[0], s[1], s[2]) + rest && Decode64(rest) == Some(s[3..])
    ensures Decode64(t) == Some(s)
  {
    GroupDecodes(s[0], s[1], s[2], rest);
    assert s == [s[0], s[1], s[2]] + s[3..];
  }

  lemma GroupFirst(s: seq<Byte>)
    requires |s| >= 3
    ensures Encode64(s) == Group(s[0], s[1], s[2]) + Encode64(s[3..])
  {
  }

  lemma OneByte(a: Byte)
    ensures Decode64(Encode64([a])) == Some([a])
  {
    ValueOfCharOf(a / 4);
    ValueOfCharOf(a % 4 * 16);
  }

  lemma TwoLeft(a: Byte, b: Byte)
    ensures Decode64(Encode64([a, b])) == Some([a, b])
  {
    ValueOfCharOf(a / 4);
    ValueOfCharOf(a % 4 * 16 + b / 16);
    ValueOfCharOf(b % 16 * 4);
  }

  lemma GroupDecodes(a: Byte, b: Byte, c: Byte, rest: string)
    requires Decode64(rest).Some?
    ensures Decode64(Group(a, b, c) + rest) == Some([a, b, c] + Decode64(rest).value)
  {
    QuadDecodes(a / 4, a % 4 * 16 + b / 16, b % 16 * 4 + c / 64, c % 64, rest);
    Regroup(a, b, c);
  }

  /** Four characters that are no padding give three bytes. */
  lemma QuadDecodes(v0: int, v1: int, v2: int, v3: int, rest: string)
    requires Sextet(v0) && Sextet(v1) && Sextet(v2) && Sextet(v3) && Decode64(rest).Some?
    ensures Decode64([CharOf(v0), CharOf(v1), CharOf(v2), CharOf(v3)] + rest)
            == Some([v0 * 4 + v1 / 16, v1 % 16 * 16 + v2 / 4, v2 % 4 * 64 + v3] + Decode64(rest).value)
  {
    var t := [CharOf(v0), CharOf(v1), CharOf(v2), CharOf(v3)] + rest;
    ValueOfCharOf(v0);
    ValueOfCharOf(v1);
    ValueOfCharOf(v2);
    ValueOfCharOf(v3);
    assert t[4..] == rest;
    DecodeQuad(t, v0, v1, v2, v3);
  }

  lemma DecodeQuad(t: string, v0: int, v1: int, v2: int, v3: int)
    requires |t| >= 4 && Decode64(t[4..]).Some?
    requires ValueOf(t[0]) == Some(v0) && ValueOf(t[1]) == Some(v1)
    requires ValueOf(t[2]) == Some(v2) && ValueOf(t[3]) == Some(v3)
    ensures Decode64(t) == Some([v0 * 4 + v1 / 16, v1 % 16 * 16 + v2 / 4, v2 % 4 * 64 + v3] + Decode64(t[4..]).value)
  {
  }

  /** The sextets of three bytes give the bytes back. */
  lemma Regroup(a: Byte, b: Byte, c: Byte)
    ensures a / 4 * 4 + (a % 4 * 16 + b / 16) / 16 == a
    ensures (a % 4 * 16 + b / 16) % 16 * 16 + (b % 16 * 4 + c / 64) / 4 == b
    ensures (b % 16 * 4 + c / 64) % 4 * 64 + c % 64 == c
  {
  }

  // ---------- Chunks ----------

  datatype Chunk = Chunk(chunk: string, cursor: nat, next: Option<string>, chunkBytes: nat, totalBytes: nat,
      isLast: bool)

  function ChunkAt(raw: seq<Byte>, cursor: nat, size: nat): Chunk {
    var offset := Min(cursor, |raw|);
    var end := Min(offset + size, |raw|);
    Chunk(Encode64(raw[offset..end]), offset, if end < |raw| then Some(Itoa(end)) else None,
          end - offset, |raw|, end == |raw|)
  }

  method GetChunk(raw: seq<Byte>, cursor: int, chunkBytes: int) returns (res: Result<Chunk, CursorError>)
    ensures res == if cursor < 0 then Err(Negative) else Ok(ChunkAt(raw, cursor, SizeOf(chunkBytes)))
  {
    var size := chunkBytes;
    if size <= 0 { size := 0x1_0000; }
    if cursor < 0 { return Err(Negative); }
    var offset := cursor;
    if offset > |raw| { offset := |raw|; }
    var end := offset + size;
    if end > |raw| { end := |raw|; }
    var last := end >= |raw|;
    res := Ok(Chunk(Encode64(raw[offset..end]), offset, if last then None else Some(Itoa(end)),
                     end - offset, |raw|, last));
  }

  /** The next cursor is read back as the position right after the chunk; there is none exactly on the last chunk. */
  lemma NextCursor(raw: seq<Byte>, cursor: nat, size: nat)
    requires |raw| <= MAX_INT
    ensures var c := ChunkAt(raw, cursor, size);
      && c.cursor == Min(cursor, |raw|) && c.chunkBytes == Min(size, |raw| - c.cursor) && c.totalBytes == |raw|
      && (c.next.None? <==> c.isLast) && (c.isLast <==> c.cursor + c.chunkBytes == |raw|)
      && (c.next.Some? ==> ParseOffset(c.next.value) == Ok(c.cursor + c.chunkBytes))
  {
    OffsetRoundTrip(Min(Min(cursor, |raw|) + size, |raw|));
  }

  /** The chunks a client collects by following the cursors. */
  function Follow(raw: seq<Byte>, cursor: nat, size: nat): seq<Chunk>
    requires size > 0 && cursor <= |raw|
    decreases |raw| - cursor
  {
    var c := ChunkAt(raw, cursor, size);
    if c.isLast then [c] else [c] + Follow(raw, c.cursor + c.chunkBytes, size)
  }

  /** The bytes of the chunks, each decoded on its own. */
  function Decoded(chunks: seq<Chunk>): Option<seq<Byte>> {
    if chunks == [] then Some([])
    else match (Decode64(chunks[0].chunk), Decoded(chunks[1..]))
      case (Some(first), Some(rest)) => Some(first + rest)
      case _ => None
  }

  /** How many requests a file of `n` bytes takes. */
  function Requests(n: nat, size: nat): (k: nat)
    requires size > 0
  {
    if n <= size then 1 else 1 + Requests(n - size, size)
  }

  /** It is the least number of chunks, at least one, that covers the bytes: the quotient rounded up. */
  lemma {:induction false} RequestsIsCeiling(n: nat, size: nat)
    requires size > 0
    ensures var k := Requests(n, size); k >= 1 && n <= k * size && (k > 1 ==> (k - 1) * size < n)
    ensures n > 0 ==> Requests(n, size) == (n + size - 1) / size
  {
    var k := Requests(n, size);
    if n > size {
      RequestsIsCeiling(n - size, size);
      var j := Requests(n - size, size);
      assert k * size == j * size + size && (k - 1) * size == (k - 2) * size + size;
    }
    if n > 0 {
      assert k * size == (k - 1) * size + size;
      Quotient(n + size - 1, size, k, n + size - 1 - k * size);
    }
  }

  lemma Quotient(a: nat, d: nat, q: nat, r: int)
    requires d > 0 && 0 <= r < d && a == q * d + r
    ensures a / d == q
  {
    var p, m := a / d, a % d;
    assert a == p * d + m;
    if p > q {
      Scaled(p, q + 1, d);
    } else if p < q {
      Scaled(q, p + 1, d);
    }
  }

  lemma Scaled(x: nat, y: nat, d: nat)
    requires x >= y
    ensures x * d >= y * d
  {
  }

  /** A chunk in front of chunks that decode to what follows it. */
  lemma DecodedCons(raw: seq<Byte>, cursor: nat, size: nat, rest: seq<Chunk>)
    requires cursor <= |raw|
    requires Decoded(rest) == Some(raw[Min(cursor + size, |raw|)..])
    ensures Decoded([ChunkAt(raw, cursor, size)] + rest) == Some(raw[cursor..])
  {
    var end := Min(cursor + size, |raw|);
    DecodedFirst(ChunkAt(raw, cursor, size), rest, raw[cursor..end], raw[end..]);
    Rejoined(raw, cursor, end);
  }

  lemma Rejoined(raw: seq<Byte>, i: nat, j: nat)
    requires i <= j <= |raw|
    ensures raw[i..] == raw[i..j] + raw[j..]
  {
  }

  lemma DecodedFirst(c: Chunk, rest: seq<Chunk>, a: seq<Byte>, b: seq<Byte>)
    requires c.chunk == Encode64(a) && Decoded(rest) == Some(b)
    ensures Decoded([c] + rest) == Some(a + b)
  {
    Base64RoundTrip(a);
    assert ([c] + rest)[1..] == rest;
  }

  lemma LastGivesRest(raw: seq<Byte>, cursor: nat, size: nat)
    requires size > 0 && cursor <= |raw| && cursor + size >= |raw|
    ensures Follow(raw, cursor, size) == [ChunkAt(raw, cursor, size)]
    ensures Decoded(Follow(raw, cursor, size)) == Some(raw[cursor..])
  {
    assert raw[|raw|..] == [];
    DecodedCons(raw, cursor, size, []);
    assert [ChunkAt(raw, cursor, size)] + [] == [ChunkAt(raw, cursor, size)];
  }

  lemma OneMoreGivesRest(raw: seq<Byte>, cursor: nat, size: nat)
    requires size > 0 && cursor + size < |raw|
    requires Decoded(Follow(raw, cursor + size, size)) == Some(raw[cursor + size..])
    ensures Decoded(Follow(raw, cursor, size)) == Some(raw[cursor..])
  {
    FollowStep(raw, cursor, size);
    DecodedCons(raw, cursor, size, Follow(raw, cursor + size, size));
  }

  lemma FollowStep(raw: seq<Byte>, cursor: nat, size: nat)
    requires size > 0 && cursor + size < |raw|
    ensures Follow(raw, cursor, size) == [ChunkAt(raw, cursor, size)] + Follow(raw, cursor + size, size)
  {
  }

  /** From any cursor, following gives the rest of the file. */
  lemma {:induction false} FollowGivesRest(raw: seq<Byte>, cursor: nat, size: nat)
    requires size > 0 && cursor <= |raw|
    ensures Decoded(Follow(raw, cursor, size)) == Some(raw[cursor..])
    decreases |raw| - cursor
  {
    if cursor + size < |raw| {
      FollowGivesRest(raw, cursor + size, size);
      OneMoreGivesRest(raw, cursor, size);
    } else {
      LastGivesRest(raw, cursor, size);
    }
  }

  /** And it takes exactly as many requests as the rest needs. */
  lemma {:induction false} FollowCounts(raw: seq<Byte>, cursor: nat, size: nat)
    requires size > 0 && cursor <= |raw|
    ensures |Follow(raw, cursor, size)| == Requests(|raw| - cursor, size)
    decreases |raw| - cursor
  {
    if cursor + size < |raw| {
      FollowCounts(raw, cursor + size, size);
      OneMoreCounts(raw, cursor, size);
    } else {
      LastCounts(raw, cursor, size);
    }
  }

  lemma LastCounts(raw: seq<Byte>, cursor: nat, size: nat)
    requires size > 0 && cursor <= |raw| && cursor + size >= |raw|
    ensures |Follow(raw, cursor, size)| == 1 == Requests(|raw| - cursor, size)
  {
    LastGivesRest(raw, cursor, size);
  }

  lemma OneMoreCounts(raw: seq<Byte>, cursor: nat, size: nat)
    requires size > 0 && cursor + size < |raw|
    ensures |Follow(raw, cursor, size)| == 1 + |Follow(raw, cursor + size, size)|
    ensures Requests(|raw| - cursor, size) == 1 + Requests(|raw| - (cursor + size), size)
  {
    FollowStep(raw, cursor, size);
  }

  /** The chunks from the start decode and concatenate to the file, in exactly the requests it needs. */
  lemma WholeFile(raw: seq<Byte>, chunkBytes: int)
    ensures var chunks := Follow(raw, 0, SizeOf(chunkBytes));
      Decoded(chunks) == Some(raw) && |chunks| == Requests(|raw|, SizeOf(chunkBytes))
  {
    FollowGivesRest(raw, 0, SizeOf(chunkBytes));
    FollowCounts(raw, 0, SizeOf(chunkBytes));
    assert raw[0..] == raw;
  }
}
