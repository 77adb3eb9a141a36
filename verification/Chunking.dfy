/** UTF-8 (section 3 of RFC 3629): a string is a sequence of scalar values and a Rust `str`
    is the sequence of bytes it encodes to. */
module Utf8 {
  type Byte = b: int | 0 <= b < 256

  type Bytes = seq<Byte>

  function EncodeChar(c: char): (r: Bytes)
    ensures 1 <= |r| <= 4
    // A character below U+0080 is its own byte and every other lead byte is above 0x7F,
    // so the lead byte alone tells whether the character is a newline or a space.
    ensures if (c as int) < 0x80 then r == [c as int] else r[0] > 0x7F
  {
    var n := c as int;
    if n < 0x80 then [n]
    else if n < 0x800 then [0xC0 + n / 0x40, 0x80 + n % 0x40]
    else if n < 0x10000 then [0xE0 + n / 0x1000, 0x80 + n / 0x40 % 0x40, 0x80 + n % 0x40]
    else [0xF0 + n / 0x40000, 0x80 + n / 0x1000 % 0x40, 0x80 + n / 0x40 % 0x40, 0x80 + n % 0x40]
  }

  function Encode(s: string): Bytes {
    if s == [] then [] else Encode(s[..|s| - 1]) + EncodeChar(s[|s| - 1])
  }

  lemma EncodeSnoc(s: string, c: char)
    ensures Encode(s + [c]) == Encode(s) + EncodeChar(c)
  {
    hide EncodeChar;
    assert (s + [c])[..|s|] == s;
  }

  lemma EncodeNothing()
    ensures Encode([]) == []
  {
  }

  lemma {:induction false} EncodeConcat(a: string, b: string)
    ensures Encode(a + b) == Encode(a) + Encode(b)
  {
    hide *;
    if b == [] {
      EncodeNothing();
      assert a + b == a;
    } else {
      var init, last := b[..|b| - 1], b[|b| - 1];
      EncodeConcat(a, init);
      EncodeSnoc(a + init, last);
      EncodeSnoc(init, last);
      assert a + b == (a + init) + [last] && b == init + [last];
    }
  }

  /** The byte position of character `i`. */
  ghost function Offset(s: string, i: nat): nat
    requires i <= |s|
  {
    |Encode(s[..i])|
  }

  /** Cutting the bytes at the offsets of two characters cuts the string at these characters. */
  lemma SliceIsEncodedSlice(s: string, i: nat, j: nat)
    requires i <= j <= |s|
    ensures Offset(s, i) <= Offset(s, j) <= |Encode(s)|
    ensures Encode(s)[Offset(s, i)..Offset(s, j)] == Encode(s[i..j])
  {
    assert s[..i] + s[i..j] == s[..j];
    assert s[..j] + s[j..] == s;
    EncodeConcat(s[..i], s[i..j]);
    EncodeConcat(s[..j], s[j..]);
  }

  /** The byte at a character's offset is the lead byte of that character. */
  lemma LeadByte(s: string, i: nat)
    requires i < |s|
    ensures Offset(s, i) < |Encode(s)|
    ensures Encode(s)[Offset(s, i)] == EncodeChar(s[i])[0]
  {
    SliceIsEncodedSlice(s, i, i + 1);
    assert s[i..i + 1] == [s[i]];
    assert Encode([s[i]]) == Encode([]) + EncodeChar(s[i]);
    assert Encode(s)[Offset(s, i)..Offset(s, i + 1)][0] == EncodeChar(s[i])[0];
  }
}

/** The text chunker: windows of at most `maxChars` characters that overlap and prefer to end
    after a newline, else after a space. */
module Chunking {
  import opened Utf8

  datatype Chunk = Chunk(text: Bytes, start: nat, end: nat)

  /** The characters from `start` up to `end`. */
  datatype Span = Span(start: nat, end: nat)

  function Min(a: int, b: int): int { if a <= b then a else b }

  function Max(a: int, b: int): int { if a >= b then a else b }

  // ---------------------------------------------------------------------------------
  // What a chunk is: the specification on characters
  // ---------------------------------------------------------------------------------

  /** The last position of `c` in `text[lo..hi]`, or -1. */
  function LastIndex(text: string, c: char, lo: nat, hi: nat): (r: int)
    requires hi <= |text|
    ensures r == -1 || (lo <= r < hi && text[r] == c)
    ensures forall p :: Max(lo, r + 1) <= p < hi ==> text[p] != c
  {
    if hi <= lo then -1
    else if text[hi - 1] == c then hi - 1
    else LastIndex(text, c, lo, hi - 1)
  }

  function WindowEnd(n: nat, maxChars: nat, start: nat): nat {
    Min(start + maxChars, n)
  }

  /** Where the boundary search of a window that starts at `start` and ends at `end` begins. */
  function SearchStart(overlap: nat, start: nat, end: nat): nat {
    Max(end - overlap, start + 1)
  }

  /** The end of the chunk that starts at `start`. A space at the very end of the window cuts
      nowhere else than a plain cut would, so an earlier space is still preferred to it. */
  function BreakAt(text: string, maxChars: nat, overlap: nat, start: nat): (b: nat)
    requires 1 <= maxChars && start < |text|
    ensures start < b <= WindowEnd(|text|, maxChars, start)
  {
    var end := WindowEnd(|text|, maxChars, start);
    var lo := SearchStart(overlap, start, end);
    if end == |text| then end
    else
      var newline := LastIndex(text, '\n', lo, end);
      if newline >= 0 then newline + 1
      else
        var space := LastIndex(text, ' ', lo, end - 1);
        if space >= 0 then space + 1 else end
  }

  function NextStart(overlap: nat, start: nat, end: nat): nat {
    Max(end - overlap, start + 1)
  }

  /** The spans of all chunks from `start` on. */
  function SpansFrom(text: string, maxChars: nat, overlap: nat, start: nat): seq<Span>
    requires 1 <= maxChars
    decreases |text| - start
  {
    if start >= |text| then []
    else
      var b := BreakAt(text, maxChars, overlap, start);
      [Span(start, b)] +
      if b == |text| then [] else SpansFrom(text, maxChars, overlap, NextStart(overlap, start, b))
  }

  function Spans(text: string, maxChars: nat, overlap: nat): seq<Span>
    requires 1 <= maxChars
  {
    SpansFrom(text, maxChars, overlap, 0)
  }

  function Slice(text: string, span: Span): Chunk {
    Chunk(if span.start <= span.end <= |text| then Encode(text[span.start..span.end]) else [], span.start, span.end)
  }

  function Chunks(text: string, maxChars: nat, overlap: nat): seq<Chunk>
    requires 1 <= maxChars
  {
    var spans := Spans(text, maxChars, overlap);
    seq(|spans|, i requires 0 <= i < |spans| => Slice(text, spans[i]))
  }

  // ---------------------------------------------------------------------------------
  // The chunker on bytes
  // ---------------------------------------------------------------------------------

  /** `char_indices`: the byte offset of every character. */
  method CharOffsets(text: string) returns (offsets: seq<nat>)
    ensures |offsets| == |text|
    ensures forall i :: 0 <= i < |text| ==> offsets[i] == Offset(text, i)
  {
    offsets := [];
    var at := 0;
    for i := 0 to |text|
      invariant |offsets| == i && at == Offset(text, i)
      invariant forall k :: 0 <= k < i ==> offsets[k] == Offset(text, k)
    {
      offsets := offsets + [at];
      assert text[..i + 1][..i] == text[..i];
      at := at + |EncodeChar(text[i])|;
    }
  }

  /** The backwards search for a boundary, over the bytes of the text. */
  method FindBreak(ghost text: string, bytes: Bytes, offsets: seq<nat>, overlap: nat, start: nat, end: nat)
    returns (breakChar: nat)
    requires bytes == Encode(text) && |offsets| == |text|
    requires forall i :: 0 <= i < |text| ==> offsets[i] == Offset(text, i)
    requires start < end < |text|
    ensures breakChar == BreakAt(text, end - start, overlap, start)
  {
    hide Encode;
    breakChar := end;
    var searchStart := SearchStart(overlap, start, end);
    var c := end;
    while c > searchStart
      invariant searchStart <= c <= end
      invariant forall p :: c <= p < end ==> text[p] != '\n'
      invariant breakChar == end ==> forall p :: c <= p < end - 1 ==> text[p] != ' '
      invariant breakChar != end ==> c <= breakChar - 1 < end - 1 && text[breakChar - 1] == ' '
      invariant breakChar != end ==> forall p :: breakChar <= p < end - 1 ==> text[p] != ' '
    {
      c := c - 1;
      LeadByte(text, c);
      var b := bytes[offsets[c]];
      if b == '\n' as int {
        breakChar := c + 1;
        LastIndexIs(text, '\n', searchStart, end, c);
        return;
      }
      if b == ' ' as int && breakChar == end {
        breakChar := c + 1;
      }
    }
    if searchStart < end {
      LastIndexIs(text, '\n', searchStart, end, -1);
      LastIndexIs(text, ' ', searchStart, end - 1, if breakChar == end then -1 else breakChar - 1);
    }
  }

  lemma LastIndexIs(text: string, c: char, lo: nat, hi: nat, r: int)
    requires hi <= |text|
    requires r == -1 || (lo <= r < hi && text[r] == c)
    requires forall p :: Max(lo, r + 1) <= p < hi ==> text[p] != c
    ensures LastIndex(text, c, lo, hi) == r
  {
  }

  /** One chunk: the window, its break and the slice of the bytes. */
  method CutChunk(ghost text: string, bytes: Bytes, offsets: seq<nat>, maxChars: nat, overlap: nat, start: nat)
    returns (chunk: Chunk)
    requires bytes == Encode(text) && |offsets| == |text|
    requires forall i :: 0 <= i < |text| ==> offsets[i] == Offset(text, i)
    requires 1 <= maxChars && start < |text|
    ensures chunk.end == BreakAt(text, maxChars, overlap, start)
    ensures chunk == Slice(text, Span(start, chunk.end))
  {
    hide Encode, EncodeChar, LastIndex;
    var total := |offsets|;
    var end := Min(start + maxChars, total);
    var breakChar := end;
    if end < total {
      breakChar := FindBreak(text, bytes, offsets, overlap, start, end);
    }
    var startByte := offsets[start];
    var breakByte := if breakChar == total then |bytes| else offsets[breakChar];
    assert text[..total] == text;
    SliceIsEncodedSlice(text, start, breakChar);
    chunk := Chunk(bytes[startByte..breakByte], start, breakChar);
  }

  lemma SpansStep(text: string, maxChars: nat, overlap: nat, start: nat)
    requires 1 <= maxChars
    ensures start >= |text| ==> SpansFrom(text, maxChars, overlap, start) == []
    ensures start < |text| ==>
      var b := BreakAt(text, maxChars, overlap, start);
      SpansFrom(text, maxChars, overlap, start) == [Span(start, b)] +
      if b == |text| then [] else SpansFrom(text, maxChars, overlap, Max(b - overlap, start + 1))
  {
  }

  lemma AreChunks(text: string, maxChars: nat, overlap: nat, chunks: seq<Chunk>)
    requires 1 <= maxChars
    requires |chunks| == |Spans(text, maxChars, overlap)|
    requires forall i :: 0 <= i < |chunks| ==> chunks[i] == Slice(text, Spans(text, maxChars, overlap)[i])
    ensures chunks == Chunks(text, maxChars, overlap)
  {
    hide Spans, Slice;
  }

  /** The chunker cuts the bytes of the text only at character boundaries and yields exactly
      the chunks of the character-level specification. */
  method ChunkText(text: string, maxChars: nat, overlap: nat) returns (chunks: seq<Chunk>)
    requires 1 <= maxChars
    ensures chunks == Chunks(text, maxChars, overlap)
  {
    hide Encode, EncodeChar, BreakAt, LastIndex, SpansFrom, Chunks, Slice;
    chunks := [];
    if text == [] {
      SpansStep(text, maxChars, overlap, 0);
      AreChunks(text, maxChars, overlap, []);
      return;
    }
    var bytes := Encode(text);
    var offsets := CharOffsets(text);
    var start := 0;
    ghost var spans := Spans(text, maxChars, overlap);
    ghost var rest := spans;
    while start < |offsets|
      invariant rest == SpansFrom(text, maxChars, overlap, start)
      invariant |chunks| + |rest| == |spans| && rest == spans[|chunks|..]
      invariant forall i :: 0 <= i < |chunks| ==> chunks[i] == Slice(text, spans[i])
      decreases |offsets| - start
    {
      SpansStep(text, maxChars, overlap, start);
      var chunk := CutChunk(text, bytes, offsets, maxChars, overlap, start);
      assert rest[0] == spans[|chunks|] == Span(start, chunk.end);
      chunks, rest := chunks + [chunk], rest[1..];
      if chunk.end == |offsets| {
        assert rest == [];
        break;
      }
      start := Max(chunk.end - overlap, start + 1);
    }
    SpansStep(text, maxChars, overlap, start);
    AreChunks(text, maxChars, overlap, chunks);
  }
}
