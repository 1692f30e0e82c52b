/** Reading a long page in chunks that are each valid UTF-8. */
module PageChunks {
  import opened Wrappers
  import opened Text
  import opened Cursors
  import opened Utf8

  /** One answer; `next` is absent on the last one. */
  datatype Chunk = Chunk(content: seq<Byte>, cursor: nat, next: Option<string>, chunkBytes: nat, totalBytes: nat,
      isLast: bool)

  /** The greatest end down from `end` at which the bytes from `offset` are valid. */
  function Cut(text: seq<Byte>, offset: nat, end: nat): (r: nat)
    requires offset <= end <= |text|
    ensures offset <= r <= end && Valid(text[offset..r])
  {
    if end > offset && !Valid(text[offset..end]) then Cut(text, offset, end - 1) else end
  }

  lemma {:induction false} CutIsGreatest(text: seq<Byte>, offset: nat, end: nat, k: nat)
    requires offset <= k <= end <= |text| && Valid(text[offset..k])
    ensures k <= Cut(text, offset, end)
  {
    if k < end && !Valid(text[offset..end]) { CutIsGreatest(text, offset, end - 1, k); }
  }

  /** Where the chunk that starts at `offset` ends. */
  function ChunkEnd(text: seq<Byte>, offset: nat, size: nat): nat
    requires offset <= |text|
  {
    Cut(text, offset, Min(offset + size, |text|))
  }

  lemma GiveUpOne(text: seq<Byte>, offset: nat, end: nat)
    requires offset < end <= |text| && !Valid(text[offset..end])
    ensures Cut(text, offset, end) == Cut(text, offset, end - 1)
  {
  }

  lemma StopsHere(text: seq<Byte>, offset: nat, end: nat)
    requires offset <= end <= |text| && (end == offset || Valid(text[offset..end]))
    ensures Cut(text, offset, end) == end
  {
  }

  /** The loop that gives up one byte at a time. */
  method BackOff(text: seq<Byte>, offset: nat, limit: nat) returns (end: nat)
    requires offset <= limit <= |text|
    ensures end == Cut(text, offset, limit)
  {
    end := limit;
    while end > offset && !Valid(text[offset..end])
      invariant offset <= end <= limit && Cut(text, offset, end) == Cut(text, offset, limit)
    {
      GiveUpOne(text, offset, end);
      end := end - 1;
    }
    StopsHere(text, offset, end);
  }

  method FindEnd(text: seq<Byte>, offset: nat, size: nat) returns (end: nat)
    requires offset <= |text|
    ensures end == ChunkEnd(text, offset, size)
  {
    var limit := offset + size;
    if limit > |text| { limit := |text|; }
    end := BackOff(text, offset, limit);
  }

  /** The answer from a cursor: the longest valid piece of at most the asked length; one past the end moves back. */
  function ChunkAt(text: seq<Byte>, cursor: nat, size: nat): Chunk {
    var offset := Min(cursor, |text|);
    var end := ChunkEnd(text, offset, size);
    Chunk(text[offset..end], offset, if end < |text| then Some(Itoa(end)) else None,
          end - offset, |text|, end == |text|)
  }

  method GetChunk(text: seq<Byte>, cursor: int, chunkBytes: int) returns (res: Result<Chunk, CursorError>)
    ensures res == if cursor < 0 then Err(Negative) else Ok(ChunkAt(text, cursor, SizeOf(chunkBytes)))
  {
    var size := chunkBytes;
    if size <= 0 { size := 0x1_0000; }
    if cursor < 0 { return Err(Negative); }
    var offset := cursor;
    if offset > |text| { offset := |text|; }
    var end := FindEnd(text, offset, size);
    var last := end >= |text|;
    res := Ok(Chunk(text[offset..end], offset, if last then None else Some(Itoa(end)), end - offset, |text|, last));
  }

  /** The next cursor is read back as the position right after the chunk; there is none exactly on the last chunk. */
  lemma NextCursor(text: seq<Byte>, cursor: nat, size: nat)
    requires |text| <= MAX_INT
    ensures var c := ChunkAt(text, cursor, size);
      && c.cursor == Min(cursor, |text|) && c.content == text[c.cursor..c.cursor + |c.content|] && Valid(c.content)
      && c.chunkBytes == |c.content| && c.totalBytes == |text|
      && (c.next.None? <==> c.isLast) && (c.isLast <==> c.cursor + |c.content| == |text|)
      && (c.next.Some? ==> ParseOffset(c.next.value) == Ok(c.cursor + |c.content|))
  {
    OffsetRoundTrip(ChunkEnd(text, Min(cursor, |text|), size));
  }

  // ---------- Following the cursors ----------

  /**
   * The chunks a client collects by following the cursors from `offset`, and whether it reaches the last one.
   * A chunk that is empty and not the last names its own cursor again: asking on would repeat it forever.
   */
  function Follow(text: seq<Byte>, offset: nat, size: nat): (seq<seq<Byte>>, bool)
    requires offset <= |text|
    decreases |text| - offset
  {
    var end := ChunkEnd(text, offset, size);
    if end == |text| then ([text[offset..]], true)
    else if end == offset then ([[]], false)
    else var (rest, done) := Follow(text, end, size); ([text[offset..end]] + rest, done)
  }

  function Concat(chunks: seq<seq<Byte>>): seq<Byte> {
    if chunks == [] then [] else chunks[0] + Concat(chunks[1..])
  }

  /** For any bytes at all: each chunk is valid, and the chunks tile what comes after the cursor, or a prefix of it. */
  lemma {:induction false} ChunksTile(text: seq<Byte>, offset: nat, size: nat)
    requires offset <= |text|
    ensures var (chunks, done) := Follow(text, offset, size);
      && (forall i :: 0 <= i < |chunks| ==> Valid(chunks[i]) && |chunks[i]| <= size)
      && Concat(chunks) <= text[offset..] && (done ==> Concat(chunks) == text[offset..])
      && (!done ==> |chunks| > 0 && chunks[|chunks| - 1] == [])
    decreases |text| - offset
  {
    var end := ChunkEnd(text, offset, size);
    var (chunks, done) := Follow(text, offset, size);
    if end == |text| {
      assert text[offset..end] == text[offset..];
      assert Concat(chunks[1..]) == [];
    } else if end == offset {
      assert Concat(chunks[1..]) == [];
    } else {
      ChunksTile(text, end, size);
      var (rest, _) := Follow(text, end, size);
      assert chunks[1..] == rest && chunks[0] == text[offset..end];
      assert text[offset..] == text[offset..end] + text[end..];
      assert text[end..][..|Concat(rest)|] == Concat(rest);
    }
  }

  /** Every character of a valid text is at most this long. */
  predicate RunesFit(s: seq<Byte>, size: nat)
    requires Valid(s)
  {
    s == [] || (RuneLen(s) <= size && RunesFit(s[RuneLen(s)..], size))
  }

  lemma {:induction false} ShortRunesFit(s: seq<Byte>, size: nat)
    requires Valid(s) && (size >= 4 || |s| <= size)
    ensures RunesFit(s, size)
  {
    RuneLenFits(s);
    if s != [] { ShortRunesFit(s[RuneLen(s)..], size); }
  }

  lemma {:induction false} RunesFitConcat(s: seq<Byte>, t: seq<Byte>, size: nat)
    requires Valid(s) && Valid(t) && Valid(s + t)
    ensures RunesFit(s + t, size) <==> RunesFit(s, size) && RunesFit(t, size)
  {
    if s == [] {
      assert s + t == t;
    } else {
      RuneLenPrefix(s, t);
      assert (s + t)[RuneLen(s)..] == s[RuneLen(s)..] + t;
      RunesFitConcat(s[RuneLen(s)..], t, size);
    }
  }

  /** At a boundary of valid text the chunk makes progress as soon as one character fits. */
  lemma ChunkMoves(text: seq<Byte>, offset: nat, size: nat)
    requires offset < |text| && Valid(text[offset..]) && RuneLen(text[offset..]) <= size
    ensures ChunkEnd(text, offset, size) > offset
  {
    var s := text[offset..];
    FirstRune(s);
    RuneLenFits(s);
    assert text[offset..offset + RuneLen(s)] == s[..RuneLen(s)];
    CutIsGreatest(text, offset, Min(offset + size, |text|), offset + RuneLen(s));
  }

  /** The text after a chunk of valid text. */
  lemma AfterChunk(text: seq<Byte>, offset: nat, size: nat)
    requires offset <= |text|
    ensures var end := ChunkEnd(text, offset, size);
      && text[offset..] == text[offset..end] + text[end..]
      && (Valid(text[offset..]) <==> Valid(text[end..]))
  {
    var end := ChunkEnd(text, offset, size);
    assert text[offset..] == text[offset..end] + text[end..];
    ValidConcat(text[offset..end], text[end..]);
  }

  /** The client reaches the end exactly if the rest of the text is valid UTF-8 and each character fits in a chunk. */
  lemma {:induction false} FollowEnds(text: seq<Byte>, offset: nat, size: nat)
    requires offset <= |text|
    ensures Follow(text, offset, size).1 <==> Valid(text[offset..]) && RunesFit(text[offset..], size)
    decreases |text| - offset
  {
    var end := ChunkEnd(text, offset, size);
    AfterChunk(text, offset, size);
    if end == |text| {
      assert text[offset..end] == text[offset..];
      ShortRunesFit(text[offset..], size);
    } else if end == offset {
      if Valid(text[offset..]) && RuneLen(text[offset..]) <= size { ChunkMoves(text, offset, size); }
    } else {
      FollowEnds(text, end, size);
      ShortRunesFit(text[offset..end], size);
      if Valid(text[end..]) { RunesFitConcat(text[offset..end], text[end..], size); }
    }
  }

  /** In valid text every chunk but the last falls short of the asked length by three bytes at most. */
  lemma LongChunk(text: seq<Byte>, offset: nat, size: nat)
    requires offset <= |text| && Valid(text[offset..]) && ChunkEnd(text, offset, size) < |text|
    ensures ChunkEnd(text, offset, size) - offset >= size - 3
  {
    if offset + size < |text| {
      var k := BoundaryNear(text[offset..], size);
      SliceOfTail(text, offset, k);
      CutIsGreatest(text, offset, offset + size, offset + k);
    } else {
      ValidToTheEnd(text, offset);
    }
  }

  /** Where all the rest is valid and short enough, it is the last chunk. */
  lemma ValidToTheEnd(text: seq<Byte>, offset: nat)
    requires offset <= |text| && Valid(text[offset..])
    ensures Cut(text, offset, |text|) == |text|
  {
    assert text[offset..|text|] == text[offset..];
  }

  lemma SliceOfTail(text: seq<Byte>, offset: nat, k: nat)
    requires offset + k <= |text|
    ensures text[offset..][..k] == text[offset..offset + k]
  {
  }

  /** Every chunk but the last has at least this many bytes. */
  predicate NearlyFull(chunks: seq<seq<Byte>>, least: int) {
    forall i :: 0 <= i < |chunks| - 1 ==> |chunks[i]| >= least
  }

  lemma NearlyFullCons(first: seq<Byte>, rest: seq<seq<Byte>>, least: int)
    requires |first| >= least && NearlyFull(rest, least)
    ensures NearlyFull([first] + rest, least)
  {
  }

  lemma {:induction false} LongChunks(text: seq<Byte>, offset: nat, size: nat)
    requires offset <= |text| && Valid(text[offset..])
    ensures NearlyFull(Follow(text, offset, size).0, size - 3)
    decreases |text| - offset
  {
    var end := ChunkEnd(text, offset, size);
    AfterChunk(text, offset, size);
    if offset < end < |text| {
      LongChunk(text, offset, size);
      LongChunks(text, end, size);
      NearlyFullCons(text[offset..end], Follow(text, end, size).0, size - 3);
    }
  }

  /**
   * With chunks of four bytes or more, a client starting at zero gets the whole text if and only if it is valid
   * UTF-8; then the chunks concatenate to exactly it, and all but the last are within three bytes of full.
   */
  lemma WholeText(text: seq<Byte>, size: nat)
    requires size >= 4
    ensures var (chunks, done) := Follow(text, 0, size);
      && (done <==> Valid(text))
      && (done ==> Concat(chunks) == text && NearlyFull(chunks, size - 3))
  {
    assert text[0..] == text;
    FollowEnds(text, 0, size);
    ChunksTile(text, 0, size);
    if Valid(text) {
      ShortRunesFit(text, size);
      LongChunks(text, 0, size);
    }
  }

  /** Three-byte chunks never get past a four-byte character. */
  lemma SmallChunksStick()
    ensures Follow([0xF0, 0x9F, 0x98, 0x80], 0, 3) == ([[]], false)
  {
    var text: seq<Byte> := [0xF0, 0x9F, 0x98, 0x80];
    assert RuneLen(text) == 4;
    assert text[4..] == [] && text[0..] == text;
    FollowEnds(text, 0, 3);
    assert !RunesFit(text, 3);
    assert forall k :: 0 < k <= 3 ==> RuneLen(text[0..k]) == 0;
  }
}
