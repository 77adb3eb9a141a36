/** What the chunker promises for every text, window size and overlap. */
module ChunkLaws {
  import opened Utf8
  import opened Chunking

  /** The span at `i` is cut by the rule, starts where the previous one says, and is the last
      one exactly if it ends at the end of the text. */
  ghost predicate WellCut(text: string, maxChars: nat, overlap: nat, spans: seq<Span>, i: nat)
    requires 1 <= maxChars
  {
    && i < |spans| && spans[i].start < |text|
    && spans[i].end == BreakAt(text, maxChars, overlap, spans[i].start)
    && (i + 1 == |spans| <==> spans[i].end == |text|)
    && (i + 1 < |spans| ==> spans[i + 1].start == NextStart(overlap, spans[i].start, spans[i].end))
  }

  lemma {:induction false} SpansWellCut(text: string, maxChars: nat, overlap: nat, start: nat, i: nat)
    requires 1 <= maxChars && start < |text|
    requires i < |SpansFrom(text, maxChars, overlap, start)|
    ensures SpansFrom(text, maxChars, overlap, start)[0].start == start
    ensures WellCut(text, maxChars, overlap, SpansFrom(text, maxChars, overlap, start), i)
    decreases |text| - start
  {
    var b := BreakAt(text, maxChars, overlap, start);
    if b < |text| {
      var next := NextStart(overlap, start, b);
      var rest := SpansFrom(text, maxChars, overlap, next);
      assert SpansFrom(text, maxChars, overlap, start) == [Span(start, b)] + rest;
      SpansWellCut(text, maxChars, overlap, next, if i == 0 then 0 else i - 1);
    }
  }

  /** The boundary search never goes back behind the previous chunk's end: below that end, each
      search window lies inside the previous one, whose best boundary is that very end. */
  lemma BreakNeverGoesBack(text: string, maxChars: nat, overlap: nat, start: nat)
    requires 1 <= maxChars && start < |text|
    requires BreakAt(text, maxChars, overlap, start) < |text|
    ensures var b := BreakAt(text, maxChars, overlap, start);
      var next := NextStart(overlap, start, b);
      next < |text| && b <= BreakAt(text, maxChars, overlap, next)
  {
    var b := BreakAt(text, maxChars, overlap, start);
    var next := NextStart(overlap, start, b);
    var end, end' := WindowEnd(|text|, maxChars, start), WindowEnd(|text|, maxChars, next);
    var lo, lo' := SearchStart(overlap, start, end), SearchStart(overlap, next, end');
    assert lo <= lo' && end <= end';
  }

  /** Chunk ends never decrease, and each chunk starts at or before the previous chunk's end:
      the two overlap by exactly the configured overlap, cut down to the previous length - 1. */
  lemma ConsecutiveChunks(text: string, maxChars: nat, overlap: nat, i: nat)
    requires 1 <= maxChars
    requires i + 1 < |Chunks(text, maxChars, overlap)|
    ensures var cs := Chunks(text, maxChars, overlap);
      && cs[i].start < cs[i + 1].start <= cs[i].end <= cs[i + 1].end
      && cs[i].end - cs[i + 1].start == Min(overlap, cs[i].end - cs[i].start - 1)
  {
    hide Encode, BreakAt;
    SpansWellCut(text, maxChars, overlap, 0, i);
    SpansWellCut(text, maxChars, overlap, 0, i + 1);
    BreakNeverGoesBack(text, maxChars, overlap, Spans(text, maxChars, overlap)[i].start);
  }

  /** Where a window that is not the last is cut: behind its last newline, else behind its last
      space that is not its last character, else at its end. */
  ghost predicate Preferred(text: string, lo: nat, end: nat, b: nat)
    requires end <= |text| && 0 < b <= end
  {
    if exists p :: lo <= p < end && text[p] == '\n' then
      lo < b && text[b - 1] == '\n' && forall p :: b <= p < end ==> text[p] != '\n'
    else if exists p :: lo <= p < end - 1 && text[p] == ' ' then
      lo < b < end && text[b - 1] == ' ' && forall p :: b <= p < end - 1 ==> text[p] != ' '
    else b == end
  }

  lemma BreakIsPreferred(text: string, maxChars: nat, overlap: nat, start: nat)
    requires 1 <= maxChars && start + maxChars < |text|
    ensures var end := start + maxChars;
      Preferred(text, SearchStart(overlap, start, end), end, BreakAt(text, maxChars, overlap, start))
  {
  }

  /** Every chunk is a non-empty slice of at most `maxChars` characters. A chunk that is not the
      last is cut at a newline or space among the last `overlap` characters of its window, or
      else is exactly `maxChars` characters long. */
  lemma ChunkBoundaries(text: string, maxChars: nat, overlap: nat, i: nat)
    requires 1 <= maxChars
    requires i < |Chunks(text, maxChars, overlap)|
    ensures var c := Chunks(text, maxChars, overlap)[i];
      && c.start < c.end <= |text| && c.end - c.start <= maxChars
      && c.text == Encode(text[c.start..c.end])
      && (c.end < |text| ==>
            var end := c.start + maxChars;
            end < |text| && Preferred(text, if c.start + overlap < end then end - overlap else c.start + 1, end, c.end))
  {
    hide Encode, BreakAt;
    SpansWellCut(text, maxChars, overlap, 0, i);
    var start := Spans(text, maxChars, overlap)[i].start;
    BreakNearWindowEnd(text, maxChars, overlap, start);
    if start + maxChars < |text| {
      BreakIsPreferred(text, maxChars, overlap, start);
    }
  }

  /** A cut window gives up less than the overlap. */
  lemma BreakNearWindowEnd(text: string, maxChars: nat, overlap: nat, start: nat)
    requires 1 <= maxChars && start < |text|
    ensures var b, end := BreakAt(text, maxChars, overlap, start), WindowEnd(|text|, maxChars, start);
      b == end || (end < |text| && end - overlap < b < end)
  {
  }

  /** With less than half of the window given to the overlap, every chunk starts at least
      `maxChars - 2 * overlap` characters after the previous one and ends later. */
  lemma StrictProgress(text: string, maxChars: nat, overlap: nat, i: nat)
    requires 2 * overlap < maxChars
    requires i + 1 < |Chunks(text, maxChars, overlap)|
    ensures var cs := Chunks(text, maxChars, overlap);
      && cs[i].start + (maxChars - 2 * overlap) <= cs[i + 1].start
      && cs[i].end < cs[i + 1].end
  {
    hide Encode, BreakAt;
    SpansWellCut(text, maxChars, overlap, 0, i);
    SpansWellCut(text, maxChars, overlap, 0, i + 1);
    var spans := Spans(text, maxChars, overlap);
    BreakNearWindowEnd(text, maxChars, overlap, spans[i].start);
    BreakNearWindowEnd(text, maxChars, overlap, spans[i + 1].start);
  }

  lemma {:induction false} StartsAdvance(text: string, maxChars: nat, overlap: nat, i: nat)
    requires 2 * overlap < maxChars
    requires i < |Chunks(text, maxChars, overlap)|
    ensures i * (maxChars - 2 * overlap) <= Chunks(text, maxChars, overlap)[i].start
  {
    hide Encode, BreakAt;
    if i == 0 {
      SpansWellCut(text, maxChars, overlap, 0, 0);
    } else {
      StartsAdvance(text, maxChars, overlap, i - 1);
      StrictProgress(text, maxChars, overlap, i - 1);
      var step := maxChars - 2 * overlap;
      assert i * step == (i - 1) * step + step;
    }
  }

  /** At most `1 + (n - 1) / (maxChars - 2 * overlap)` chunks for a text of n characters. */
  lemma ChunkCount(text: string, maxChars: nat, overlap: nat)
    requires 2 * overlap < maxChars
    requires text != []
    ensures 1 <= |Chunks(text, maxChars, overlap)| <= 1 + (|text| - 1) / (maxChars - 2 * overlap)
  {
    hide Encode, BreakAt;
    var k := |Chunks(text, maxChars, overlap)| - 1;
    StartsAdvance(text, maxChars, overlap, k);
    SpansWellCut(text, maxChars, overlap, 0, k);
    QuotientBound(k, maxChars - 2 * overlap, |text| - 1);
  }

  lemma QuotientBound(k: nat, d: nat, n: nat)
    requires 0 < d && k * d <= n
    ensures k <= n / d
  {
    assert (n / d + 1) * d > n;
    if n / d + 1 <= k {
      MulMonotone(n / d + 1, k, d);
    }
  }

  lemma {:induction false} MulMonotone(a: nat, b: nat, d: nat)
    requires a <= b
    ensures a * d <= b * d
  {
    if a < b {
      MulMonotone(a, b - 1, d);
    }
  }

  // ---------------------------------------------------------------------------------
  // Reassembly
  // ---------------------------------------------------------------------------------

  /** The number of bytes of a character, from its lead byte. */
  function Width(lead: Byte): (w: nat)
    ensures 1 <= w <= 4
  {
    if lead < 0x80 then 1 else if lead < 0xE0 then 2 else if lead < 0xF0 then 3 else 4
  }

  /** Skips the first `k` characters of UTF-8 bytes. */
  function DropChars(bytes: Bytes, k: nat): Bytes
    decreases k
  {
    if k == 0 || bytes == [] then bytes
    else if Width(bytes[0]) <= |bytes| then DropChars(bytes[Width(bytes[0])..], k - 1)
    else []
  }

  lemma EncodeFirst(s: string)
    requires s != []
    ensures Encode(s) == EncodeChar(s[0]) + Encode(s[1..])
    ensures |EncodeChar(s[0])| == Width(EncodeChar(s[0])[0])
  {
    assert s == s[..1] + s[1..];
    EncodeConcat(s[..1], s[1..]);
    EncodeSnoc([], s[0]);
    assert s[..1] == [] + [s[0]];
  }

  lemma {:induction false} DropCharsOfEncoded(s: string, k: nat)
    requires k <= |s|
    ensures DropChars(Encode(s), k) == Encode(s[k..])
  {
    if k == 0 {
      assert s[0..] == s;
    } else {
      hide EncodeChar, Encode, Width;
      EncodeFirst(s);
      var head := EncodeChar(s[0]);
      assert Encode(s)[0] == head[0];
      assert Encode(s)[|head|..] == Encode(s[1..]);
      DropCharsOfEncoded(s[1..], k - 1);
      assert s[1..][k - 1..] == s[k..];
    }
  }

  /** Drops from each chunk its overlap with the previous chunk and joins what is left. */
  function Rebuild(cs: seq<Chunk>): Bytes {
    if cs == [] then []
    else
      var last := cs[|cs| - 1];
      var covered := if |cs| == 1 then 0 else Max(0, cs[|cs| - 2].end - last.start);
      Rebuild(cs[..|cs| - 1]) + DropChars(last.text, covered)
  }

  /** The part of a chunk behind its overlap with what is already there extends it seamlessly. */
  lemma ExtendCovered(text: string, start: nat, seen: nat, end: nat)
    requires start <= seen <= end <= |text|
    ensures Encode(text[..0]) == []
    ensures Encode(text[..seen]) + DropChars(Encode(text[start..end]), seen - start) == Encode(text[..end])
  {
    hide EncodeChar, DropChars;
    DropCharsOfEncoded(text[start..end], seen - start);
    assert text[start..end][seen - start..] == text[seen..end];
    assert text[..seen] + text[seen..end] == text[..end];
    EncodeConcat(text[..seen], text[seen..end]);
  }

  lemma {:induction false} RebuildPrefix(text: string, maxChars: nat, overlap: nat, k: nat)
    requires 1 <= maxChars
    requires k < |Chunks(text, maxChars, overlap)|
    ensures var cs := Chunks(text, maxChars, overlap);
      cs[k].end <= |text| && Rebuild(cs[..k + 1]) == Encode(text[..cs[k].end])
  {
    hide Encode, BreakAt, DropChars;
    var cs := Chunks(text, maxChars, overlap);
    ChunkBoundaries(text, maxChars, overlap, k);
    assert cs[..k + 1][..k] == cs[..k];
    if k == 0 {
      SpansWellCut(text, maxChars, overlap, 0, 0);
      ExtendCovered(text, 0, 0, cs[0].end);
    } else {
      RebuildPrefix(text, maxChars, overlap, k - 1);
      ConsecutiveChunks(text, maxChars, overlap, k - 1);
      ExtendCovered(text, cs[k].start, cs[k - 1].end, cs[k].end);
    }
  }

  /** No character is lost, duplicated or moved: the chunks without their overlaps are the text. */
  lemma ChunksRebuildText(text: string, maxChars: nat, overlap: nat)
    requires 1 <= maxChars
    ensures Rebuild(Chunks(text, maxChars, overlap)) == Encode(text)
  {
    hide Encode, BreakAt, Rebuild;
    var cs := Chunks(text, maxChars, overlap);
    if text == [] {
      RebuildNothing(maxChars, overlap);
    } else {
      RebuildPrefix(text, maxChars, overlap, |cs| - 1);
      SpansWellCut(text, maxChars, overlap, 0, |cs| - 1);
      assert cs[..|cs|] == cs && text[..|text|] == text;
    }
  }

  lemma RebuildNothing(maxChars: nat, overlap: nat)
    requires 1 <= maxChars
    ensures Rebuild(Chunks([], maxChars, overlap)) == Encode([])
  {
    assert Chunks([], maxChars, overlap) == [];
  }

  // ---------------------------------------------------------------------------------
  // Reading the bytes back
  // ---------------------------------------------------------------------------------

  /** What a byte behind the lead byte carries. */
  function Sextet(b: int): int {
    b - 0x80
  }

  /** The code point that the first character of UTF-8 bytes stands for. */
  function CodePoint(bytes: Bytes): int
    requires bytes != [] && Width(bytes[0]) <= |bytes|
  {
    var lead: int := bytes[0];
    if lead < 0x80 then lead
    else if lead < 0xE0 then (lead - 0xC0) * 0x40 + Sextet(bytes[1])
    else if lead < 0xF0 then (lead - 0xE0) * 0x1000 + Sextet(bytes[1]) * 0x40 + Sextet(bytes[2])
    else (lead - 0xF0) * 0x40000 + Sextet(bytes[1]) * 0x1000 + Sextet(bytes[2]) * 0x40 + Sextet(bytes[3])
  }

  /** The code points of UTF-8 bytes, as far as they are well formed. */
  function CodePoints(bytes: Bytes): seq<int> {
    if bytes == [] || Width(bytes[0]) > |bytes| then []
    else [CodePoint(bytes)] + CodePoints(bytes[Width(bytes[0])..])
  }

  lemma Sextets(n: nat)
    ensures n == n / 0x40 * 0x40 + n % 0x40
    ensures n == n / 0x1000 * 0x1000 + n / 0x40 % 0x40 * 0x40 + n % 0x40
    ensures n == n / 0x40000 * 0x40000 + n / 0x1000 % 0x40 * 0x1000 + n / 0x40 % 0x40 * 0x40 + n % 0x40
  {
    var q := n / 0x40;
    var p := q / 0x40;
    assert n == q * 0x40 + n % 0x40 && q == p * 0x40 + q % 0x40 && p == p / 0x40 * 0x40 + p % 0x40;
    assert n / 0x1000 == p && n / 0x40000 == p / 0x40;
  }

  lemma CharReadsBack(c: char, rest: Bytes)
    ensures Width(EncodeChar(c)[0]) == |EncodeChar(c)|
    ensures CodePoint(EncodeChar(c) + rest) == c as int
  {
    Sextets(c as int);
  }

  /** Encoding loses nothing: the bytes of a text read back as its characters. */
  lemma {:induction false} TextReadsBack(s: string)
    ensures |CodePoints(Encode(s))| == |s|
    ensures forall i :: 0 <= i < |s| ==> CodePoints(Encode(s))[i] == s[i] as int
  {
    hide Encode, EncodeChar, Width, CodePoint;
    if s == [] {
      EncodeNothing();
    } else {
      EncodeFirst(s);
      var head := EncodeChar(s[0]);
      CharReadsBack(s[0], Encode(s[1..]));
      assert Encode(s)[0] == head[0];
      assert Encode(s)[|head|..] == Encode(s[1..]);
      TextReadsBack(s[1..]);
    }
  }
}
