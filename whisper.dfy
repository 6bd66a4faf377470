/**
 * The speech-to-text client's handling of long recordings: `splitFile` cuts the audio
 * into chunks of at least ten minutes that end at the end of a silence, and
 * `transcribeFile` stitches the per-chunk transcripts back together, shifting each
 * chunk's segments past the segments already merged. Times are seconds.
 */
module Whisper {
  import opened Wrappers
  import Text
  import opened MediaUtil

  /** `minSecondsPerChunk`. */
  const MinSecondsPerChunk: real := 600.0

  function RMin(a: real, b: real): real {
    if a <= b then a else b
  }

  /** Every silence ends, and not before it starts. */
  predicate WellFormed(silences: seq<Silence>) {
    forall i :: 0 <= i < |silences| ==> silences[i].end.Some? && silences[i].end.value >= silences[i].start
  }

  // ---------------------------------------------------------------------------
  // Chunk boundaries
  // ---------------------------------------------------------------------------

  /** `silences.find(silence => silence.start > t)`, as the position of the silence found. */
  function FirstAfter(silences: seq<Silence>, t: real): (r: Option<nat>)
    ensures r.Some? ==> r.value < |silences| && silences[r.value].start > t
    ensures r.Some? ==> forall j :: 0 <= j < r.value ==> silences[j].start <= t
    ensures r.None? ==> forall j :: 0 <= j < |silences| ==> silences[j].start <= t
  {
    if |silences| == 0 then None
    else if silences[0].start > t then Some(0)
    else match FirstAfter(silences[1..], t)
      case None => None
      case Some(i) => Some(i + 1)
  }

  /**
   * The end of the chunk that starts at `start`: the end of the first silence that
   * starts after the ideal end `min(start + 600, duration)`, or the duration when there
   * is none.
   */
  function ChunkEnd(silences: seq<Silence>, start: real, duration: real): real
    requires WellFormed(silences)
  {
    match FirstAfter(silences, RMin(start + MinSecondsPerChunk, duration))
    case Some(i) => silences[i].end.value
    case None => duration
  }

  /** A chunk reaches at least its ideal end, so it lasts ten minutes unless the audio ends first. */
  lemma ChunkEndBounds(silences: seq<Silence>, start: real, duration: real)
    requires WellFormed(silences) && start < duration
    ensures ChunkEnd(silences, start, duration) >= RMin(start + MinSecondsPerChunk, duration) > start
  {
  }

  /** How many silences start after `t`. */
  function CountAfter(silences: seq<Silence>, t: real): nat {
    if |silences| == 0 then 0
    else (if silences[0].start > t then 1 else 0) + CountAfter(silences[1..], t)
  }

  /** Fewer silences start after a later time, strictly fewer when one starts in between. */
  lemma {:induction false} CountAfterShrinks(silences: seq<Silence>, t1: real, t2: real, i: int)
    requires t1 <= t2
    ensures CountAfter(silences, t2) <= CountAfter(silences, t1)
    ensures 0 <= i < |silences| && t1 < silences[i].start <= t2 ==> CountAfter(silences, t2) < CountAfter(silences, t1)
    decreases |silences|
  {
    if |silences| > 0 {
      CountAfterShrinks(silences[1..], t1, t2, i - 1);
    }
  }

  /** A chunk written by `splitFile`: the path `extractAudioSegment` returns and the times it cuts at. */
  datatype Chunk = Chunk(path: string, start: real, end: real)

  /** `${filePath}_chunk_${i}.mp3`. */
  function ChunkPath(filePath: string, i: nat): string {
    filePath + "_chunk_" + Text.NatToString(i) + ".mp3"
  }

  /**
   * `splitFile`, given the duration and the silences the media helpers report: the first
   * chunk starts at 0, each next one where the previous one ended, every chunk starts
   * before the end of the audio and the last one reaches it.
   */
  method SplitFile(filePath: string, duration: real, silences: seq<Silence>) returns (chunks: seq<Chunk>)
    requires WellFormed(silences)
    ensures |chunks| == 0 <==> duration <= 0.0
    ensures |chunks| > 0 ==> chunks[0].start == 0.0 && chunks[|chunks| - 1].end >= duration
    ensures forall i :: 0 <= i < |chunks| - 1 ==> chunks[i + 1].start == chunks[i].end
    ensures forall i :: 0 <= i < |chunks| ==>
      chunks[i].path == ChunkPath(filePath, i) && chunks[i].start < duration &&
      chunks[i].end == ChunkEnd(silences, chunks[i].start, duration)
  {
    chunks := [];
    var chunkStartTime := 0.0;
    while chunkStartTime < duration
      invariant |chunks| == 0 ==> chunkStartTime == 0.0
      invariant |chunks| > 0 ==> chunks[0].start == 0.0 && chunkStartTime == chunks[|chunks| - 1].end
      invariant forall i :: 0 <= i < |chunks| - 1 ==> chunks[i + 1].start == chunks[i].end
      invariant forall i :: 0 <= i < |chunks| ==>
        chunks[i].path == ChunkPath(filePath, i) && chunks[i].start < duration &&
        chunks[i].end == ChunkEnd(silences, chunks[i].start, duration)
      decreases CountAfter(silences, chunkStartTime) + (if chunkStartTime < duration then 1 else 0)
    {
      var idealChunkStartTime := RMin(chunkStartTime + MinSecondsPerChunk, duration);
      var nextSilence := FirstAfter(silences, idealChunkStartTime);
      var chunkEndTime: real;
      if nextSilence.Some? {
        chunkEndTime := silences[nextSilence.value].end.value;
        CountAfterShrinks(silences, chunkStartTime, chunkEndTime, nextSilence.value);
      } else {
        chunkEndTime := duration;
        CountAfterShrinks(silences, chunkStartTime, chunkEndTime, -1);
      }
      var chunkPath := ChunkPath(filePath, |chunks|);
      chunks := chunks + [Chunk(chunkPath, chunkStartTime, chunkEndTime)];
      chunkStartTime := chunkEndTime;
    }
  }

  // ---------------------------------------------------------------------------
  // Merging the transcripts
  // ---------------------------------------------------------------------------

  /** A transcript segment. */
  datatype Segment = Segment(start: real, end: real, text: string)

  /** One chunk's transcription: its text (`''` when missing) and its segments, if any. */
  datatype ChunkResult = ChunkResult(text: string, segments: Option<seq<Segment>>)

  /** The accumulator of the merge. */
  datatype Transcript = Transcript(text: string, segments: seq<Segment>)

  /** The end of the last merged segment, `0` before any. */
  function LastEnd(segments: seq<Segment>): real {
    if |segments| == 0 then 0.0 else segments[|segments| - 1].end
  }

  /** A chunk's segments moved `offset` seconds later. */
  function Shift(segments: seq<Segment>, offset: real): (r: seq<Segment>)
    ensures |r| == |segments|
  {
    seq(|segments|, i requires 0 <= i < |segments| => Segment(offset + segments[i].start, offset + segments[i].end, segments[i].text))
  }

  /** One step of the reduce: append the text after a space, and the segments shifted past the last merged one. */
  function MergeStep(acc: Transcript, result: ChunkResult): Transcript {
    Transcript(
      if result.text != "" then acc.text + " " + result.text else acc.text,
      if result.segments.Some? then acc.segments + Shift(result.segments.value, LastEnd(acc.segments)) else acc.segments)
  }

  /** The reduce of `transcribeFile` over the results in chunk order, from `{ text: '', segments: [] }`. */
  function Merge(results: seq<ChunkResult>): Transcript {
    if |results| == 0 then Transcript("", [])
    else MergeStep(Merge(results[..|results| - 1]), results[|results| - 1])
  }

  /** What a chunk adds to the text. */
  function Piece(result: ChunkResult): string {
    if result.text != "" then " " + result.text else ""
  }

  /** The texts of the chunks, each after a space, in chunk order. */
  function Texts(results: seq<ChunkResult>): string {
    if |results| == 0 then "" else Piece(results[0]) + Texts(results[1..])
  }

  /** How many segments the chunks have. */
  function SegmentCount(results: seq<ChunkResult>): nat {
    if |results| == 0 then 0
    else (if results[0].segments.Some? then |results[0].segments.value| else 0) + SegmentCount(results[1..])
  }

  lemma {:induction false} TextsSnoc(results: seq<ChunkResult>, last: ChunkResult)
    ensures Texts(results + [last]) == Texts(results) + Piece(last)
    decreases |results|
  {
    if |results| == 0 {
      assert ([last])[1..] == [];
    } else {
      assert (results + [last])[1..] == results[1..] + [last];
      TextsSnoc(results[1..], last);
    }
  }

  lemma {:induction false} SegmentCountSnoc(results: seq<ChunkResult>, last: ChunkResult)
    ensures SegmentCount(results + [last]) == SegmentCount(results) + (if last.segments.Some? then |last.segments.value| else 0)
    decreases |results|
  {
    if |results| == 0 {
      assert ([last])[1..] == [];
    } else {
      assert (results + [last])[1..] == results[1..] + [last];
      SegmentCountSnoc(results[1..], last);
    }
  }

  /** The merged text is every chunk's text after a space, in chunk order. */
  lemma {:induction false} MergedText(results: seq<ChunkResult>)
    ensures Merge(results).text == Texts(results)
    decreases |results|
  {
    if |results| > 0 {
      var front := results[..|results| - 1];
      MergedText(front);
      TextsSnoc(front, results[|results| - 1]);
      assert front + [results[|results| - 1]] == results;
    }
  }

  /** The merge keeps every segment: as many as the chunks have together. */
  lemma {:induction false} MergedCount(results: seq<ChunkResult>)
    ensures |Merge(results).segments| == SegmentCount(results)
    decreases |results|
  {
    if |results| > 0 {
      var front := results[..|results| - 1];
      MergedCount(front);
      SegmentCountSnoc(front, results[|results| - 1]);
      assert front + [results[|results| - 1]] == results;
    }
  }

  /** Merging more chunks only appends segments. */
  lemma {:induction false} MergePrefix(results: seq<ChunkResult>, n: nat)
    requires n <= |results|
    ensures Merge(results[..n]).segments <= Merge(results).segments
    decreases |results| - n
  {
    if n < |results| {
      MergePrefix(results, n + 1);
      assert results[..n + 1][..n] == results[..n];
    } else {
      assert results[..n] == results;
    }
  }

  /**
   * Segment `j` of chunk `k` lands after the segments of the chunks before it, shifted
   * by the end of the last segment merged from those chunks (0 when there is none), not
   * by the time the chunk starts at.
   */
  lemma MergedSegmentAt(results: seq<ChunkResult>, k: int, j: int)
    requires 0 <= k < |results| && results[k].segments.Some? && 0 <= j < |results[k].segments.value|
    ensures var m := Merge(results).segments;
      var o := SegmentCount(results[..k]);
      var s := results[k].segments.value[j];
      var offset := LastEnd(Merge(results[..k]).segments);
      o + j < |m| && m[o + j] == Segment(offset + s.start, offset + s.end, s.text)
  {
    var before := Merge(results[..k]).segments;
    var upTo := Merge(results[..k + 1]).segments;
    assert results[..k + 1][..k] == results[..k];
    MergedCount(results[..k]);
    MergePrefix(results, k + 1);
    var m := Merge(results).segments;
    var o := SegmentCount(results[..k]);
    assert upTo == before + Shift(results[k].segments.value, LastEnd(before));
    assert m[o + j] == upTo[o + j];
  }
}
