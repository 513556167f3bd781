/** Header normalisation (`header_normalise`): the header block of a message
    is cut at the first blank line, continuation lines are folded into the
    header line they follow, and every logical line is split at its first
    colon into a lower-cased key and a stripped value. */
module Header {
  import opened Results
  import opened Text

  type Line = string

  /** A header field: the lower-cased key and the stripped value. */
  type Field = (string, string)

  /** A logical header line without a colon (the unpacking of
      `line.split(':', 1)` fails on it). */
  datatype HeaderError = MalformedHeader(line: string)

  /** A line that ends the header block: nothing but whitespace (so that
      `line.strip()` is empty, by StripEmpty). */
  predicate IsBlank(line: Line) {
    forall k :: 0 <= k < |line| ==> IsSpace(line[k])
  }

  /** A line that continues the previous header: it starts with a space or a tab. */
  predicate IsContinuation(line: Line) {
    |line| > 0 && (line[0] == ' ' || line[0] == '\t')
  }

  /** Index of the first blank line, or the length when there is none. */
  function BlockEnd(message: seq<Line>): (n: nat)
    ensures n <= |message|
  {
    if message == [] || IsBlank(message[0]) then 0 else 1 + BlockEnd(message[1..])
  }

  /** BlockEnd is the position of the first blank line. */
  lemma {:induction false} BlockEndIsFirstBlank(message: seq<Line>)
    ensures forall k :: 0 <= k < BlockEnd(message) ==> !IsBlank(message[k])
    ensures BlockEnd(message) < |message| ==> IsBlank(message[BlockEnd(message)])
  {
    if message != [] && !IsBlank(message[0]) {
      BlockEndIsFirstBlank(message[1..]);
    }
  }

  /** The header block: every line before the first blank one. */
  function HeaderBlock(message: seq<Line>): seq<Line> {
    message[..BlockEnd(message)]
  }

  // ---------------------------------------------------------------------
  // The scan over the header block, as the loop performs it.  The state is
  // the list of logical lines pushed so far followed by the current heading;
  // it starts as [""], the empty placeholder.

  function Step(acc: seq<string>, line: Line): (r: seq<string>)
    requires |acc| > 0
  {
    if IsContinuation(line) then acc[..|acc| - 1] + [acc[|acc| - 1] + " " + Strip(line)]
    else acc + [Strip(line)]
  }

  function Scan(acc: seq<string>, lines: seq<Line>): (r: seq<string>)
    requires |acc| > 0
    ensures |r| > 0
    decreases |lines|
  {
    if lines == [] then acc else Step(Scan(acc, lines[..|lines| - 1]), lines[|lines| - 1])
  }

  /** The logical header lines, with the leading placeholder dropped. */
  function LogicalLines(message: seq<Line>): seq<string> {
    Scan([""], HeaderBlock(message))[1..]
  }

  /** Scanning from the front: the first line is the first step. */
  lemma {:induction false} ScanCons(acc: seq<string>, line: Line, lines: seq<Line>)
    requires |acc| > 0
    ensures Scan(acc, [line] + lines) == Scan(Step(acc, line), lines)
    decreases |lines|
  {
    if lines == [] {
      assert [line] + lines == [line];
      assert [line][..0] == [];
    } else {
      var n := |lines|;
      var all := [line] + lines;
      var init, last := lines[..n - 1], lines[n - 1];
      assert all[..n] == [line] + init && all[n] == last;
      var before := Scan(Step(acc, line), init);
      assert Scan(acc, all[..n]) == before by {
        ScanCons(acc, line, init);
      }
      assert Scan(acc, all) == Step(before, last);
      assert Scan(Step(acc, line), lines) == Step(before, last);
    }
  }

  // ---------------------------------------------------------------------
  // An independent description of the logical lines: every line that is not
  // a continuation opens a header, which is its stripped text followed by
  // " " and the stripped text of each continuation line after it.

  /** Number of continuation lines at the front of `lines`. */
  function ContinuationRun(lines: seq<Line>): (n: nat)
    ensures n <= |lines|
    ensures forall k :: 0 <= k < n ==> IsContinuation(lines[k])
    ensures n < |lines| ==> !IsContinuation(lines[n])
  {
    if lines == [] || !IsContinuation(lines[0]) then 0 else 1 + ContinuationRun(lines[1..])
  }

  /** The text continuation lines add to their header. */
  function Continuations(lines: seq<Line>): string {
    if lines == [] then "" else " " + Strip(lines[0]) + Continuations(lines[1..])
  }

  /** The headers opened by `lines[0]` and by each later non-continuation line. */
  function Headers(lines: seq<Line>): seq<string>
    decreases |lines|
  {
    if lines == [] then []
    else
      var n := ContinuationRun(lines[1..]);
      [Strip(lines[0]) + Continuations(lines[1..1 + n])] + Headers(lines[1 + n..])
  }

  /** Number of lines that are not continuations. */
  function CountOpeners(lines: seq<Line>): nat {
    if lines == [] then 0
    else (if IsContinuation(lines[0]) then 0 else 1) + CountOpeners(lines[1..])
  }

  /** The right-hand side of ScanIsHeaders. */
  function FinishThenHeaders(acc: seq<string>, lines: seq<Line>): seq<string>
    requires |acc| > 0
  {
    var n := ContinuationRun(lines);
    acc[..|acc| - 1] + [acc[|acc| - 1] + Continuations(lines[..n])] + Headers(lines[n..])
  }

  /** The step of ScanIsHeaders for a leading continuation line. */
  lemma ContinuationStep(acc: seq<string>, lines: seq<Line>)
    requires |acc| > 0 && lines != [] && IsContinuation(lines[0])
    ensures FinishThenHeaders(Step(acc, lines[0]), lines[1..]) == FinishThenHeaders(acc, lines)
  {
    var n := ContinuationRun(lines);
    var front, last := acc[..|acc| - 1], acc[|acc| - 1];
    var piece := " " + Strip(lines[0]);
    var acc' := front + [last + piece];
    assert acc' == Step(acc, lines[0]) by {
      assert last + " " + Strip(lines[0]) == last + piece;
    }
    var rest := lines[1..];
    var tail := Continuations(rest[..n - 1]);
    assert FinishThenHeaders(acc', rest) == front + [last + piece + tail] + Headers(lines[n..]) by {
      assert ContinuationRun(rest) == n - 1;
      assert acc'[..|acc'| - 1] == front;
      assert rest[n - 1..] == lines[n..];
    }
    assert Continuations(lines[..n]) == piece + tail by {
      assert lines[..n][1..] == rest[..n - 1];
    }
    assert last + piece + tail == last + (piece + tail);
  }

  /** Headers unrolled once: the first line with its continuations, then the rest. */
  lemma HeadersFirst(lines: seq<Line>)
    requires lines != []
    ensures var rest := lines[1..];
      var m := ContinuationRun(rest);
      Headers(lines) == [Strip(lines[0]) + Continuations(rest[..m])] + Headers(rest[m..])
  {
    var rest := lines[1..];
    var m := ContinuationRun(rest);
    assert rest[..m] == lines[1..1 + m];
    assert rest[m..] == lines[1 + m..];
  }

  /** With no leading continuation there is nothing to finish: the headers follow acc. */
  lemma FinishAtOpener(acc: seq<string>, lines: seq<Line>)
    requires |acc| > 0 && lines != [] && !IsContinuation(lines[0])
    ensures FinishThenHeaders(acc, lines) == acc + Headers(lines)
  {
    assert ContinuationRun(lines) == 0 && lines[..0] == [] && lines[0..] == lines;
    assert acc[|acc| - 1] + Continuations([]) == acc[|acc| - 1];
    assert acc[..|acc| - 1] + [acc[|acc| - 1]] == acc;
  }

  /** Finishing after a freshly pushed heading completes that heading. */
  lemma FinishAfterPush(acc: seq<string>, heading: string, lines: seq<Line>)
    ensures var m := ContinuationRun(lines);
      FinishThenHeaders(acc + [heading], lines) ==
        acc + ([heading + Continuations(lines[..m])] + Headers(lines[m..]))
  {
    var acc' := acc + [heading];
    assert acc'[..|acc'| - 1] == acc;
  }

  /** The step of ScanIsHeaders for a line that opens a header. */
  lemma OpenerStep(acc: seq<string>, lines: seq<Line>)
    requires |acc| > 0 && lines != [] && !IsContinuation(lines[0])
    ensures FinishThenHeaders(Step(acc, lines[0]), lines[1..]) == FinishThenHeaders(acc, lines)
  {
    assert Step(acc, lines[0]) == acc + [Strip(lines[0])];
    FinishAfterPush(acc, Strip(lines[0]), lines[1..]);
    HeadersFirst(lines);
    FinishAtOpener(acc, lines);
  }

  /** The scan finishes the current heading with the leading continuations
      and then produces exactly the headers of the remaining lines. */
  lemma {:induction false} ScanIsHeaders(acc: seq<string>, lines: seq<Line>)
    requires |acc| > 0
    ensures Scan(acc, lines) == FinishThenHeaders(acc, lines)
    decreases |lines|
  {
    if lines == [] {
      assert lines[..0] == [] && lines[0..] == [];
      assert acc[|acc| - 1] + Continuations([]) == acc[|acc| - 1];
      assert acc[..|acc| - 1] + [acc[|acc| - 1]] == acc;
    } else {
      ScanIsHeaders(Step(acc, lines[0]), lines[1..]);
      ScanCons(acc, lines[0], lines[1..]);
      assert [lines[0]] + lines[1..] == lines;
      if IsContinuation(lines[0]) {
        ContinuationStep(acc, lines);
      } else {
        OpenerStep(acc, lines);
      }
    }
  }

  /** The logical header lines are the headers opened by the header block's
      non-continuation lines, in order; continuation lines before the first
      header line are folded into the placeholder and lost with it. */
  lemma LogicalLinesAreHeaders(message: seq<Line>)
    ensures var block := HeaderBlock(message);
      LogicalLines(message) == Headers(block[ContinuationRun(block)..])
  {
    var block := HeaderBlock(message);
    var n := ContinuationRun(block);
    ScanIsHeaders([""], block);
    assert FinishThenHeaders([""], block)[1..] == Headers(block[n..]);
  }

  lemma {:induction false} ScanLength(acc: seq<string>, lines: seq<Line>)
    requires |acc| > 0
    ensures |Scan(acc, lines)| == |acc| + CountOpeners(lines)
    decreases |lines|
  {
    if lines != [] {
      ScanLength(Step(acc, lines[0]), lines[1..]);
      ScanCons(acc, lines[0], lines[1..]);
      assert [lines[0]] + lines[1..] == lines;
    }
  }

  /** One logical line per header line that is not a continuation; no header
      lines at all give no logical lines. */
  lemma LogicalLinesCount(message: seq<Line>)
    ensures |LogicalLines(message)| == CountOpeners(HeaderBlock(message))
  {
    ScanLength([""], HeaderBlock(message));
  }

  /** Everything after the first blank line is body and is never looked at. */
  lemma BodyIsIgnored(header: seq<Line>, blank: Line, body1: seq<Line>, body2: seq<Line>)
    requires forall k :: 0 <= k < |header| ==> !IsBlank(header[k])
    requires IsBlank(blank)
    ensures HeaderBlock(header + [blank] + body1) == header
    ensures LogicalLines(header + [blank] + body1) == LogicalLines(header + [blank] + body2)
  {
    BlockEndAt(header + [blank] + body1, |header|);
    BlockEndAt(header + [blank] + body2, |header|);
    assert (header + [blank] + body1)[..|header|] == header;
    assert (header + [blank] + body2)[..|header|] == header;
  }

  /** With no blank line the whole message is header. */
  lemma NoBlankLineAllHeader(message: seq<Line>)
    requires forall k :: 0 <= k < |message| ==> !IsBlank(message[k])
    ensures HeaderBlock(message) == message
  {
    BlockEndAt(message, |message|);
  }

  /** The properties of BlockEnd determine it. */
  lemma BlockEndAt(message: seq<Line>, n: nat)
    requires n <= |message|
    requires forall k :: 0 <= k < n ==> !IsBlank(message[k])
    requires n < |message| ==> IsBlank(message[n])
    ensures BlockEnd(message) == n
  {
    BlockEndIsFirstBlank(message);

  }

  // ---------------------------------------------------------------------
  // Splitting logical lines into fields.

  /** Index of the first colon, or the length when there is none. */
  function FirstColon(s: string): (i: nat)
    ensures i <= |s|
    ensures forall k :: 0 <= k < i ==> s[k] != ':'
    ensures i < |s| ==> s[i] == ':'
  {
    if s == [] || s[0] == ':' then 0 else 1 + FirstColon(s[1..])
  }

  /** `key, value = line.split(':', 1)` followed by `(key.lower(), value.strip())`. */
  function SplitField(line: string): (r: Result<Field, HeaderError>)
    ensures r.Ok? <==> ':' in line
    ensures r.Err? ==> r.error == MalformedHeader(line)
    ensures r.Ok? ==> exists key, rest :: (line == key + ":" + rest && ':' !in key &&
      r.value == (Lower(key), Strip(rest)))
  {
    var i := FirstColon(line);
    if i == |line| then Err(MalformedHeader(line))
    else
      assert line == line[..i] + ":" + line[i + 1..];
      Ok((Lower(line[..i]), Strip(line[i + 1..])))
  }

  /** Split every logical line; the first one without a colon is the error. */
  function ParseFields(lines: seq<string>): (r: Result<seq<Field>, HeaderError>)
    ensures r.Ok? <==> forall k :: 0 <= k < |lines| ==> ':' in lines[k]
    ensures r.Ok? ==> |r.value| == |lines|
    ensures r.Ok? ==> forall k :: 0 <= k < |lines| ==> r.value[k] == SplitField(lines[k]).value
  {
    if lines == [] then Ok([])
    else
      match SplitField(lines[0])
      case Err(e) => Err(e)
      case Ok(f) =>
        match ParseFields(lines[1..])
        case Err(e) => Err(e)
        case Ok(fs) => Ok([f] + fs)
  }

  /** Parsing fails at the first logical line without a colon. */
  lemma {:induction false} ParseFieldsFirstError(lines: seq<string>, j: nat)
    requires j < |lines| && ':' !in lines[j]
    requires forall k :: 0 <= k < j ==> ':' in lines[k]
    ensures ParseFields(lines) == Err(MalformedHeader(lines[j]))
  {
    if j > 0 {
      ParseFieldsFirstError(lines[1..], j - 1);
    }
  }

  /** When every line has a colon, parsing yields one field per line. */
  lemma ParseFieldsAllOk(lines: seq<string>, fields: seq<Field>)
    requires forall k :: 0 <= k < |lines| ==> ':' in lines[k]
    requires |fields| == |lines|
    requires forall k :: 0 <= k < |lines| ==> fields[k] == SplitField(lines[k]).value
    ensures ParseFields(lines) == Ok(fields)
  {
    var parsed := ParseFields(lines);
    assert parsed.Ok?;
    assert parsed.value == fields by {
      assert |parsed.value| == |fields|;
      assert forall k :: 0 <= k < |fields| ==> parsed.value[k] == fields[k];
    }
  }

  /** The fields of a message's header, in order. */
  function Normalise(message: seq<Line>): Result<seq<Field>, HeaderError> {
    ParseFields(LogicalLines(message))
  }

  /** One step of the scan, written on the pushed lines and the current heading. */
  lemma StepOn(result: seq<string>, heading: string, line: Line)
    ensures IsContinuation(line) ==> Step(result + [heading], line) == result + [heading + " " + Strip(line)]
    ensures !IsContinuation(line) ==> Step(result + [heading], line) == result + [heading] + [Strip(line)]
  {
    assert (result + [heading])[..|result|] == result;
  }

  /** The first loop of `header_normalise`: scan the header block, folding
      continuation lines, and drop the placeholder. */
  method FoldHeaderBlock(message: seq<Line>) returns (logical: seq<string>)
    ensures logical == LogicalLines(message)
  {
    var result: seq<string> := [];
    var heading := "";
    var i := 0;
    while i < |message|
      invariant i <= BlockEnd(message)
      invariant result + [heading] == Scan([""], message[..i])
    {
      var tidy := Strip(message[i]);
      if tidy == "" {
        assert i == BlockEnd(message) by {
          StripEmpty(message[i]);
          BlockEndIsFirstBlank(message);
        }
        break;
      }
      assert i < BlockEnd(message) by {
        StripEmpty(message[i]);
        BlockEndIsFirstBlank(message);
      }
      ghost var result0, heading0 := result, heading;
      if message[i][0] == ' ' || message[i][0] == '\t' {
        heading := heading + " " + tidy;
      } else {
        result := result + [heading];
        heading := tidy;
      }
      assert result + [heading] == Scan([""], message[..i + 1]) by {
        StepOn(result0, heading0, message[i]);
        assert message[..i + 1][..i] == message[..i];
      }
      i := i + 1;
    }
    result := result + [heading];
    logical := result[1..];
  }

  /** The second loop of `header_normalise`: split each logical line at its
      first colon, failing at the first line that has none. */
  method SplitFields(logical: seq<string>) returns (r: Result<seq<Field>, HeaderError>)
    ensures r == ParseFields(logical)
  {
    var res: seq<Field> := [];
    var j := 0;
    while j < |logical|
      invariant j <= |logical|
      invariant forall k :: 0 <= k < j ==> ':' in logical[k]
      invariant |res| == j
      invariant forall k :: 0 <= k < j ==> res[k] == SplitField(logical[k]).value
    {
      var field := SplitField(logical[j]);
      if field.Err? {
        ParseFieldsFirstError(logical, j);
        return Err(field.error);
      }
      res := res + [field.value];
      j := j + 1;
    }
    ParseFieldsAllOk(logical, res);
    r := Ok(res);
  }

  /** `header_normalise`: the header fields of `message`. */
  method HeaderNormalise(message: seq<Line>) returns (r: Result<seq<Field>, HeaderError>)
    ensures r == Normalise(message)
  {
    var logical := FoldHeaderBlock(message);
    r := SplitFields(logical);
  }
}
