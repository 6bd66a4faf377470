/**
 * The two readers of ffmpeg's `silencedetect` log: the `stderr` handler of
 * `detectAllSilence`, which sees the log line by line as ffmpeg writes it, and
 * `parseSilenceOutput`, which splits a whole log into lines. Both pair each
 * `silence_end` line with the `silence_start` line before it. `parseFloat` is a
 * parameter; its `NaN` is `None`.
 */
module MediaUtil {
  import opened Wrappers
  import opened Exceptions
  import Text

  /** A silent interval; the end is `None` when it read as `NaN`. */
  datatype Silence = Silence(start: real, end: Option<real>)

  /** `currentStart`: `null`, or the value the last `silence_start` line gave (possibly `NaN`). */
  datatype Pending = NoStart | StartAt(start: Option<real>)

  /** The state of a reader between two lines. */
  datatype Scan = Scan(pending: Pending, silences: seq<Silence>)

  /** `line.split(tag)[1]`, `undefined` when the tag does not occur. */
  function After(line: string, tag: string): Option<string>
    requires |tag| > 0
  {
    Text.PartAfter(line, tag)
  }

  /** `parseFloat(line.split(tag)[1])`: `parseFloat(undefined)` is `NaN`. */
  function ReadAfter(line: string, tag: string, parseFloat: string -> Option<real>): Option<real>
    requires |tag| > 0
  {
    match After(line, tag)
    case None => None
    case Some(s) => parseFloat(s)
  }

  /** `parseFloat(line.split(tag)[1].trim())`: trimming `undefined` throws. */
  function ReadTrimmedAfter(line: string, tag: string, parseFloat: string -> Option<real>): (r: Result<Option<real>, Error>)
    requires |tag| > 0
    ensures r.Err? <==> !Text.Contains(line, tag)
  {
    match After(line, tag)
    case None => Err(TypeError("Cannot read properties of undefined (reading 'trim')"))
    case Some(s) => Ok(parseFloat(Text.Trim(s)))
  }

  /** `x >= bound`, false for `NaN`. */
  predicate AtLeast(x: Option<real>, bound: real) {
    x.Some? && x.value >= bound
  }

  /** `x <= bound`, false for `NaN`. */
  predicate AtMost(x: Option<real>, bound: real) {
    x.Some? && x.value <= bound
  }

  // ---------------------------------------------------------------------------
  // The `stderr` handler of `detectAllSilence`
  // ---------------------------------------------------------------------------

  /**
   * One `stderr` line: a `silence_start` line (re)sets the pending start; a
   * `silence_end` line with a pending start records the interval when the start is not
   * before `startTime`, and clears the pending start; any other line changes nothing.
   */
  function DetectStep(st: Scan, line: string, startTime: real, parseFloat: string -> Option<real>): Scan {
    if Text.Contains(line, "silence_start") then
      Scan(StartAt(ReadAfter(line, "silence_start:", parseFloat)), st.silences)
    else if Text.Contains(line, "silence_end") && st.pending.StartAt? then
      var end := ReadAfter(line, "silence_end:", parseFloat);
      var start := st.pending.start;
      Scan(NoStart, if AtLeast(start, startTime) then st.silences + [Silence(start.value, end)] else st.silences)
    else st
  }

  /** The handler's state after the given lines. */
  function DetectScan(lines: seq<string>, startTime: real, parseFloat: string -> Option<real>): Scan {
    if |lines| == 0 then Scan(NoStart, [])
    else DetectStep(DetectScan(lines[..|lines| - 1], startTime, parseFloat), lines[|lines| - 1], startTime, parseFloat)
  }

  /**
   * `detectAllSilence`'s collection: the handler run over the `stderr` lines in the
   * order ffmpeg writes them, and `silenceData` resolved at the end.
   */
  method DetectAllSilence(lines: seq<string>, startTime: real, parseFloat: string -> Option<real>) returns (silences: seq<Silence>)
    ensures silences == DetectScan(lines, startTime, parseFloat).silences
  {
    var currentStart: Pending := NoStart;
    var silenceData: seq<Silence> := [];
    for i := 0 to |lines|
      invariant DetectScan(lines[..i], startTime, parseFloat) == Scan(currentStart, silenceData)
    {
      var line := lines[i];
      assert lines[..i + 1][..i] == lines[..i] && lines[..i + 1][i] == line;
      if Text.Contains(line, "silence_start") {
        currentStart := StartAt(ReadAfter(line, "silence_start:", parseFloat));
      } else if Text.Contains(line, "silence_end") && currentStart.StartAt? {
        var silenceEnd := ReadAfter(line, "silence_end:", parseFloat);
        if AtLeast(currentStart.start, startTime) {
          silenceData := silenceData + [Silence(currentStart.start.value, silenceEnd)];
        }
        currentStart := NoStart;
      }
    }
    assert lines[..|lines|] == lines;
    silences := silenceData;
  }

  /** Every interval the handler records starts at or after `startTime`. */
  lemma {:induction false} DetectKeepsLaterStarts(lines: seq<string>, startTime: real, parseFloat: string -> Option<real>)
    ensures forall x :: x in DetectScan(lines, startTime, parseFloat).silences ==> x.start >= startTime
    decreases |lines|
  {
    if |lines| > 0 {
      DetectKeepsLaterStarts(lines[..|lines| - 1], startTime, parseFloat);
    }
  }

  /**
   * A line containing `silence_start` is a start line whatever else it contains: it
   * overwrites the pending start and records nothing.
   */
  lemma StartLineOverwrites(st: Scan, line: string, startTime: real, parseFloat: string -> Option<real>)
    requires Text.Contains(line, "silence_start")
    ensures DetectStep(st, line, startTime, parseFloat) == Scan(StartAt(ReadAfter(line, "silence_start:", parseFloat)), st.silences)
  {
  }

  /** A `silence_end` line without a pending start is ignored; with one, the pending start is cleared. */
  lemma EndLinePairs(st: Scan, line: string, startTime: real, parseFloat: string -> Option<real>)
    requires !Text.Contains(line, "silence_start") && Text.Contains(line, "silence_end")
    ensures st.pending.NoStart? ==> DetectStep(st, line, startTime, parseFloat) == st
    ensures st.pending.StartAt? ==> DetectStep(st, line, startTime, parseFloat).pending == NoStart
  {
  }

  // ---------------------------------------------------------------------------
  // `parseSilenceOutput`
  // ---------------------------------------------------------------------------

  /**
   * One line of the log: as in the `stderr` handler, except that the value after the tag
   * is trimmed (and the line fails when the tag with its colon is missing), and an
   * interval is kept only when, besides starting at or after `startTime`, it ends at or
   * before `endTime`.
   */
  function ParseStep(st: Scan, line: string, startTime: real, endTime: real, parseFloat: string -> Option<real>)
    : Result<Scan, Error>
  {
    if Text.Contains(line, "silence_start") then
      match ReadTrimmedAfter(line, "silence_start:", parseFloat)
      case Err(e) => Err(e)
      case Ok(start) => Ok(Scan(StartAt(start), st.silences))
    else if Text.Contains(line, "silence_end") && st.pending.StartAt? then
      match ReadTrimmedAfter(line, "silence_end:", parseFloat)
      case Err(e) => Err(e)
      case Ok(end) =>
        var start := st.pending.start;
        Ok(Scan(NoStart,
          if AtLeast(start, startTime) && AtMost(end, endTime) then st.silences + [Silence(start.value, end)]
          else st.silences))
    else Ok(st)
  }

  /** The parser's state after the given lines, or the error of the first line that fails. */
  function ParseScan(lines: seq<string>, startTime: real, endTime: real, parseFloat: string -> Option<real>): Result<Scan, Error> {
    if |lines| == 0 then Ok(Scan(NoStart, []))
    else
      match ParseScan(lines[..|lines| - 1], startTime, endTime, parseFloat)
      case Err(e) => Err(e)
      case Ok(st) => ParseStep(st, lines[|lines| - 1], startTime, endTime, parseFloat)
  }

  /** `parseSilenceOutput(output, startTime, endTime)`. */
  method ParseSilenceOutput(output: string, startTime: real, endTime: real, parseFloat: string -> Option<real>)
    returns (r: Result<seq<Silence>, Error>)
    ensures var scan := ParseScan(Text.Split(output, '\n'), startTime, endTime, parseFloat);
      r == if scan.Ok? then Ok(scan.value.silences) else Err(scan.error)
  {
    var lines := Text.Split(output, '\n');
    var silences: seq<Silence> := [];
    var currentStart: Pending := NoStart;
    for i := 0 to |lines|
      invariant ParseScan(lines[..i], startTime, endTime, parseFloat) == Ok(Scan(currentStart, silences))
    {
      var line := lines[i];
      assert lines[..i + 1][..i] == lines[..i] && lines[..i + 1][i] == line;
      assert ParseScan(lines[..i + 1], startTime, endTime, parseFloat) ==
        ParseStep(Scan(currentStart, silences), line, startTime, endTime, parseFloat);
      if Text.Contains(line, "silence_start") {
        var start := ReadTrimmedAfter(line, "silence_start:", parseFloat);
        if start.Err? {
          ParseErrorPersists(lines, i + 1, startTime, endTime, parseFloat);
          return Err(start.error);
        }
        currentStart := StartAt(start.value);
      } else if Text.Contains(line, "silence_end") && currentStart.StartAt? {
        var silenceEnd := ReadTrimmedAfter(line, "silence_end:", parseFloat);
        if silenceEnd.Err? {
          ParseErrorPersists(lines, i + 1, startTime, endTime, parseFloat);
          return Err(silenceEnd.error);
        }
        if AtLeast(currentStart.start, startTime) && AtMost(silenceEnd.value, endTime) {
          silences := silences + [Silence(currentStart.start.value, silenceEnd.value)];
        }
        currentStart := NoStart;
      }
    }
    assert lines[..|lines|] == lines;
    return Ok(silences);
  }

  /** Once a line has failed, the whole log fails with that line's error. */
  lemma {:induction false} ParseErrorPersists(lines: seq<string>, n: nat, startTime: real, endTime: real, parseFloat: string -> Option<real>)
    requires n <= |lines| && ParseScan(lines[..n], startTime, endTime, parseFloat).Err?
    ensures ParseScan(lines, startTime, endTime, parseFloat) == ParseScan(lines[..n], startTime, endTime, parseFloat)
    decreases |lines| - n
  {
    if n < |lines| {
      assert lines[..n + 1][..n] == lines[..n];
      ParseErrorPersists(lines, n + 1, startTime, endTime, parseFloat);
    } else {
      assert lines[..n] == lines;
    }
  }

  /** Every interval the parser keeps starts at or after `startTime` and ends at or before `endTime`. */
  lemma {:induction false} ParseKeepsWindow(lines: seq<string>, startTime: real, endTime: real, parseFloat: string -> Option<real>)
    requires ParseScan(lines, startTime, endTime, parseFloat).Ok?
    ensures forall x :: x in ParseScan(lines, startTime, endTime, parseFloat).value.silences ==>
      x.start >= startTime && AtMost(x.end, endTime)
    decreases |lines|
  {
    if |lines| > 0 {
      var front := lines[..|lines| - 1];
      assert ParseScan(front, startTime, endTime, parseFloat).Ok?;
      ParseKeepsWindow(front, startTime, endTime, parseFloat);
      var st := ParseScan(front, startTime, endTime, parseFloat).value;
      assert ParseScan(lines, startTime, endTime, parseFloat) == ParseStep(st, lines[|lines| - 1], startTime, endTime, parseFloat);
    }
  }

  /** The intervals that end at or before `endTime`, in order. */
  function EndingBy(xs: seq<Silence>, endTime: real): seq<Silence> {
    if |xs| == 0 then []
    else EndingBy(xs[..|xs| - 1], endTime) + if AtMost(xs[|xs| - 1].end, endTime) then [xs[|xs| - 1]] else []
  }

  /**
   * Where `parseFloat` ignores the white space trimming removes, a log the parser reads
   * without failing gives exactly the intervals the `stderr` handler records from the
   * same lines that also end at or before `endTime`, in the same order.
   */
  lemma {:induction false} ParseIsDetectWithinEnd(lines: seq<string>, startTime: real, endTime: real, parseFloat: string -> Option<real>)
    requires forall s :: parseFloat(Text.Trim(s)) == parseFloat(s)
    requires ParseScan(lines, startTime, endTime, parseFloat).Ok?
    ensures var p := ParseScan(lines, startTime, endTime, parseFloat).value;
      var d := DetectScan(lines, startTime, parseFloat);
      p.pending == d.pending && p.silences == EndingBy(d.silences, endTime)
    decreases |lines|
  {
    if |lines| > 0 {
      var front := lines[..|lines| - 1];
      var line := lines[|lines| - 1];
      assert ParseScan(front, startTime, endTime, parseFloat).Ok?;
      ParseIsDetectWithinEnd(front, startTime, endTime, parseFloat);
      var p := ParseScan(front, startTime, endTime, parseFloat).value;
      var d := DetectScan(front, startTime, parseFloat);
      assert ParseScan(lines, startTime, endTime, parseFloat) == ParseStep(p, line, startTime, endTime, parseFloat);
      assert DetectScan(lines, startTime, parseFloat) == DetectStep(d, line, startTime, parseFloat);
      if !Text.Contains(line, "silence_start") && Text.Contains(line, "silence_end") && d.pending.StartAt? && AtLeast(d.pending.start, startTime) {
        var x := Silence(d.pending.start.value, ReadAfter(line, "silence_end:", parseFloat));
        assert (d.silences + [x])[..|d.silences|] == d.silences;
      }
    }
  }
}
