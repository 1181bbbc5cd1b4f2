/**
 * The text-element extractor of `process_frame`: the detector's output is split
 * into lines, each line into whitespace-separated fields, and a line with twelve
 * fields whose first field is all digits becomes one text element.
 */
module Detections {
  import opened Wrappers
  import opened PyStrings

  /** One detected word: the left, top, width and height of its box, and its text. */
  datatype TextElement = TextElement(x: int, y: int, w: int, h: int, text: string)

  /** The `ValueError` that `int()` raises on a field that is not an integer literal. */
  datatype ParseError = InvalidLiteral(literal: string)

  /** What one detector line contributes: nothing, one element, or an exception. */
  datatype Row = Skipped | Accepted(element: TextElement) | Raised(error: ParseError)

  /** The shape test of the parser: exactly twelve fields, the first one all digits. */
  predicate IsDetectionRow(fields: seq<string>) {
    |fields| == 12 && IsDigitString(fields[0])
  }

  /**
   * Fields 6 to 9 converted by `int()`, left to right, and field 11 as the text;
   * the first field that does not convert raises.
   */
  function RowElement(fields: seq<string>): (r: Row)
    requires IsDetectionRow(fields)
    ensures !r.Skipped?
    ensures r.Accepted? <==> forall k :: 6 <= k <= 9 ==> ParseInt(fields[k]).Some?
    ensures r.Accepted? ==>
      && Some(r.element.x) == ParseInt(fields[6]) && Some(r.element.y) == ParseInt(fields[7])
      && Some(r.element.w) == ParseInt(fields[8]) && Some(r.element.h) == ParseInt(fields[9])
      && r.element.text == fields[11]
    ensures r.Raised? ==>
      exists k ::
        && 6 <= k <= 9 && ParseInt(fields[k]).None? && r.error == InvalidLiteral(fields[k])
        && forall j :: 6 <= j < k ==> ParseInt(fields[j]).Some?
  {
    var x, y, w, h := ParseInt(fields[6]), ParseInt(fields[7]), ParseInt(fields[8]), ParseInt(fields[9]);
    if x.None? then Raised(InvalidLiteral(fields[6]))
    else if y.None? then Raised(InvalidLiteral(fields[7]))
    else if w.None? then Raised(InvalidLiteral(fields[8]))
    else if h.None? then Raised(InvalidLiteral(fields[9]))
    else Accepted(TextElement(x.value, y.value, w.value, h.value, fields[11]))
  }

  /** One line of detector output, as the loop body treats it. */
  function ParseRow(line: string): (r: Row)
    ensures r.Skipped? <==> !IsDetectionRow(Split(line))
    ensures r.Accepted? ==> |r.element.text| > 0 && NoSpace(r.element.text)
  {
    var fields := Split(line);
    if IsDetectionRow(fields) then RowElement(fields) else Skipped
  }

  /**
   * The elements of the accepted lines, in line order, or the exception of the
   * first line that raises.
   */
  function ExtractLines(lines: seq<string>): (r: Result<seq<TextElement>, ParseError>)
    ensures r.Success? ==> forall k :: 0 <= k < |r.value| ==> |r.value[k].text| > 0 && NoSpace(r.value[k].text)
  {
    if lines == [] then Success([])
    else
      match ExtractLines(lines[..|lines| - 1])
      case Failure(e) => Failure(e)
      case Success(elements) =>
        match ParseRow(lines[|lines| - 1])
        case Skipped => Success(elements)
        case Accepted(e) => Success(elements + [e])
        case Raised(err) => Failure(err)
  }

  /** What `process_frame` extracts from the detector's output `data`. */
  function ExtractElements(data: string): (r: Result<seq<TextElement>, ParseError>)
    ensures r.Success? <==> forall k :: 0 <= k < |SplitLines(data)| ==> !ParseRow(SplitLines(data)[k]).Raised?
    ensures r.Success? ==> |r.value| == |DetectionRows(SplitLines(data))|
    ensures r.Success? ==> forall k :: 0 <= k < |r.value| ==> |r.value[k].text| > 0 && NoSpace(r.value[k].text)
  {
    var lines := SplitLines(data);
    ExtractSucceedsIff(lines);
    if ExtractLines(lines).Success? then ExtractedFromDetectionRows(lines); ExtractLines(lines)
    else ExtractLines(lines)
  }

  /** The field lists of the lines that pass the shape test, in line order. */
  function DetectionRows(lines: seq<string>): (rows: seq<seq<string>>)
    ensures |rows| <= |lines|
    ensures forall k :: 0 <= k < |rows| ==> IsDetectionRow(rows[k])
  {
    if lines == [] then []
    else
      var fields := Split(lines[|lines| - 1]);
      DetectionRows(lines[..|lines| - 1]) + (if IsDetectionRow(fields) then [fields] else [])
  }

  /**
   * The loop of `process_frame` that builds `text_elements`: it returns exactly
   * what `ExtractElements` describes, so the same detector output always yields
   * the same elements.
   */
  method ParseDetections(data: string) returns (r: Result<seq<TextElement>, ParseError>)
    ensures r == ExtractElements(data)
    ensures r.Success? ==> forall k :: 0 <= k < |r.value| ==> |r.value[k].text| > 0 && NoSpace(r.value[k].text)
  {
    var lines := SplitLines(data);
    var elements: seq<TextElement> := [];
    var i := 0;
    while i < |lines|
      invariant 0 <= i <= |lines|
      invariant ExtractLines(lines[..i]) == Success(elements)
    {
      var fields := Split(lines[i]);
      assert lines[..i + 1][..i] == lines[..i];
      if |fields| == 12 && IsDigitString(fields[0]) {
        var x, y, w, h := ParseInt(fields[6]), ParseInt(fields[7]), ParseInt(fields[8]), ParseInt(fields[9]);
        if x.None? || y.None? || w.None? || h.None? {
          var literal := if x.None? then fields[6] else if y.None? then fields[7]
                         else if w.None? then fields[8] else fields[9];
          FailureExtends(lines, i + 1);
          assert lines == lines[..|lines|];
          return Failure(InvalidLiteral(literal));
        }
        elements := elements + [TextElement(x.value, y.value, w.value, h.value, fields[11])];
      }
      i := i + 1;
    }
    assert lines[..i] == lines;
    return Success(elements);
  }

  /** Once a prefix of the lines raises, the whole parse raises the same exception. */
  lemma {:induction false} FailureExtends(lines: seq<string>, i: nat)
    requires i <= |lines|
    requires ExtractLines(lines[..i]).Failure?
    ensures ExtractLines(lines) == ExtractLines(lines[..i])
    decreases |lines| - i
  {
    if i < |lines| {
      assert lines[..i + 1][..i] == lines[..i];
      FailureExtends(lines, i + 1);
    } else {
      assert lines[..i] == lines;
    }
  }

  /**
   * A successful parse lists one element per line that passes the shape test, in
   * line order: coordinates from fields 6 to 9, text from field 11.
   */
  lemma {:induction false} ExtractedFromDetectionRows(lines: seq<string>)
    requires ExtractLines(lines).Success?
    ensures |ExtractLines(lines).value| == |DetectionRows(lines)|
    ensures forall k :: 0 <= k < |DetectionRows(lines)| ==>
      RowElement(DetectionRows(lines)[k]) == Accepted(ExtractLines(lines).value[k])
  {
    if lines != [] {
      ExtractedFromDetectionRows(lines[..|lines| - 1]);
    }
  }

  /** The parse raises exactly when some accepted line has a field 6 to 9 that is no integer. */
  lemma {:induction false} ExtractSucceedsIff(lines: seq<string>)
    ensures ExtractLines(lines).Success? <==> forall k :: 0 <= k < |lines| ==> !ParseRow(lines[k]).Raised?
  {
    if lines != [] {
      var init := lines[..|lines| - 1];
      ExtractSucceedsIff(init);
      assert forall k :: 0 <= k < |init| ==> init[k] == lines[k];
    }
  }

  /** The exception that escapes is the one of the first line that raises. */
  lemma {:induction false} ExtractFailsAtFirstRaise(lines: seq<string>)
    requires ExtractLines(lines).Failure?
    ensures exists k ::
      && 0 <= k < |lines| && ParseRow(lines[k]) == Raised(ExtractLines(lines).error)
      && forall j :: 0 <= j < k ==> !ParseRow(lines[j]).Raised?
  {
    var init := lines[..|lines| - 1];
    assert forall k :: 0 <= k < |init| ==> init[k] == lines[k];
    if ExtractLines(init).Failure? {
      ExtractFailsAtFirstRaise(init);
    } else {
      ExtractSucceedsIff(init);
      assert ParseRow(lines[|lines| - 1]) == Raised(ExtractLines(lines).error);
    }
  }

  /** A line that fails the shape test contributes nothing and raises nothing, wherever it stands. */
  lemma {:induction false} SkippedLineIgnored(before: seq<string>, line: string, after: seq<string>)
    requires ParseRow(line).Skipped?
    ensures ExtractLines(before + [line] + after) == ExtractLines(before + after)
    decreases |after|
  {
    var lhs, rhs := before + [line] + after, before + after;
    if after == [] {
      assert lhs[..|lhs| - 1] == before;
      assert rhs == before;
    } else {
      var init := after[..|after| - 1];
      SkippedLineIgnored(before, line, init);
      assert lhs[..|lhs| - 1] == before + [line] + init;
      assert rhs[..|rhs| - 1] == before + init;
      assert lhs[|lhs| - 1] == rhs[|rhs| - 1];
    }
  }

  /** Detector output with no line of the detection shape yields no elements and no exception. */
  lemma {:induction false} NoDetectionRowsNoElements(lines: seq<string>)
    requires forall k :: 0 <= k < |lines| ==> !IsDetectionRow(Split(lines[k]))
    ensures ExtractLines(lines) == Success([])
  {
    ExtractSucceedsIff(lines);
    ExtractedFromDetectionRows(lines);
    NoRowsPass(lines);
  }

  lemma {:induction false} NoRowsPass(lines: seq<string>)
    requires forall k :: 0 <= k < |lines| ==> !IsDetectionRow(Split(lines[k]))
    ensures DetectionRows(lines) == []
  {
    if lines != [] {
      NoRowsPass(lines[..|lines| - 1]);
    }
  }

  /** The detector's column header: twelve fields, but the first is not a number. */
  const HeaderFields: seq<string> :=
    ["level", "page_num", "block_num", "par_num", "line_num", "word_num",
     "left", "top", "width", "height", "conf", "text"]

  /** A word-level detection: level 5, box (10, 20, 30, 40), confidence 96, text "hello". */
  const WordFields: seq<string> := ["5", "1", "1", "1", "1", "1", "10", "20", "30", "40", "96", "hello"]

  lemma HeaderRowSkipped()
    ensures ParseRow(JoinWith(HeaderFields, '\t')) == Skipped
  {
    SplitJoinWith(HeaderFields, '\t');
    assert HeaderFields[0][0] == 'l';
  }

  /** A malformed row of eight fields is skipped without raising. */
  lemma ShortRowSkipped()
    ensures ParseRow(JoinWith(WordFields[..8], '\t')) == Skipped
  {
    SplitJoinWith(WordFields[..8], '\t');
  }

  /** A recognised text with a space in it gives thirteen fields, so the row is skipped. */
  lemma LongRowSkipped()
    ensures ParseRow(JoinWith(WordFields[..11] + ["New", "York"], '\t')) == Skipped
  {
    SplitJoinWith(WordFields[..11] + ["New", "York"], '\t');
  }

  lemma WordRowAccepted()
    ensures ParseRow(JoinWith(WordFields, '\t')) == Accepted(TextElement(10, 20, 30, 40, "hello"))
  {
    SplitJoinWith(WordFields, '\t');
    assert IsDetectionRow(WordFields);
    WordCoordinates(WordFields);
  }

  lemma WordCoordinates(fields: seq<string>)
    requires |fields| == 12 && IsDetectionRow(fields)
    requires fields[6] == "10" && fields[7] == "20" && fields[8] == "30" && fields[9] == "40"
    ensures RowElement(fields) == Accepted(TextElement(10, 20, 30, 40, fields[11]))
  {
    TwoDigitLiteral(fields[6]);
    TwoDigitLiteral(fields[7]);
    TwoDigitLiteral(fields[8]);
    TwoDigitLiteral(fields[9]);
  }

  lemma TwoDigitLiteral(s: string)
    requires |s| == 2 && IsAsciiDigit(s[0]) && IsAsciiDigit(s[1])
    ensures ParseInt(s) == Some(10 * DigitValue(s[0]) + DigitValue(s[1]))
  {
    assert s[0] != '+' && s[0] != '-';
    assert IsDigitGroups(s);
    var first := s[..1];
    assert first[..0] == "" && first[0] == s[0];
    assert DigitsValue(first) == DigitValue(s[0]);
    assert DigitsValue(s) == DigitsValue(first) * 10 + DigitValue(s[1]);
  }

  /** A row of the detection shape whose left coordinate is "1O" (letter O) raises on it. */
  lemma BadCoordinateRaises()
    ensures ParseRow(JoinWith(WordFields[6 := "1O"], '\t')) == Raised(InvalidLiteral("1O"))
  {
    SplitJoinWith(WordFields[6 := "1O"], '\t');
    assert IsDetectionRow(WordFields[6 := "1O"]);
    BadLeftCoordinate(WordFields[6 := "1O"]);
  }

  lemma BadLeftCoordinate(fields: seq<string>)
    requires IsDetectionRow(fields) && fields[6] == "1O"
    ensures RowElement(fields) == Raised(InvalidLiteral("1O"))
  {
    assert !IsDigitGroups("1O") by { assert !IsAsciiDigit("1O"[1]) && "1O"[1] != '_'; }
  }

  lemma HeaderIsOneLine()
    ensures NoLineBoundary(JoinWith(HeaderFields, '\t'))
  {
    assert forall k :: 0 <= k < |HeaderFields| ==> NoLineBoundary(HeaderFields[k]);
    JoinWithIsOneLine(HeaderFields, '\t');
  }

  lemma WordIsOneLine()
    ensures NoLineBoundary(JoinWith(WordFields, '\t'))
  {
    assert forall k :: 0 <= k < |WordFields| ==> NoLineBoundary(WordFields[k]);
    JoinWithIsOneLine(WordFields, '\t');
  }

  /** A skipped line followed by an accepted one yields just that line's element. */
  lemma SkippedThenAccepted(first: string, second: string, e: TextElement)
    requires NoLineBoundary(first) && NoLineBoundary(second)
    requires ParseRow(first) == Skipped && ParseRow(second) == Accepted(e)
    ensures ExtractElements(Terminated([first, second])) == Success([e])
  {
    var lines := [first, second];
    SplitLinesTerminated(lines);
    assert lines[..|lines| - 1] == [first] && lines[|lines| - 1] == second;
    assert [first][..0] == [];
    assert ExtractLines([first]) == Success([]);
    assert [] + [e] == [e];
  }

  /** The header followed by one word row yields that one word's element. */
  lemma OneWordOutputExtracted()
    ensures ExtractElements(Terminated([JoinWith(HeaderFields, '\t'), JoinWith(WordFields, '\t')]))
      == Success([TextElement(10, 20, 30, 40, "hello")])
  {
    HeaderIsOneLine();
    WordIsOneLine();
    HeaderRowSkipped();
    WordRowAccepted();
    SkippedThenAccepted(JoinWith(HeaderFields, '\t'), JoinWith(WordFields, '\t'), TextElement(10, 20, 30, 40, "hello"));
  }
}
