/**
 * One pass of `process_frame` after detection: the results of the gather are
 * drawn on the frame in order, skipping the `None` ones, and the frame is shown.
 * Drawing is recorded as a log of captions on the frame object; the display
 * records every frame it is handed.
 */
module Pipeline {
  import opened Wrappers
  import opened PyStrings
  import opened Detections
  import opened Translation

  /** One `cv2.putText` call: the text drawn with its origin at `(x, y)`. */
  datatype Caption = Caption(x: int, y: int, text: string)

  /** Why a frame is abandoned: `int()` failed on a coordinate, or a translation raised past its task. */
  datatype FrameError = BadCoordinate(literal: string) | TranslationRaised(exception: string)

  /** The captions the draw loop makes for a list of results: one per non-`None` result, in order. */
  function Captions(results: seq<Option<TranslatedElement>>): (cs: seq<Caption>)
    ensures |cs| <= |results|
    ensures cs == [] <==> forall i :: 0 <= i < |results| ==> results[i].None?
  {
    if results == [] then []
    else
      var last := results[|results| - 1];
      Captions(results[..|results| - 1])
        + (if last.Some? then [Caption(last.value.x, last.value.y, last.value.text)] else [])
  }

  /** A frame buffer; `captions` lists, in order, every caption drawn on it. */
  class Frame {
    var captions: seq<Caption>

    constructor ()
      ensures captions == []
    {
      captions := [];
    }

    /** `cv2.putText(frame, text, (x, y), ...)`. */
    method PutText(text: string, x: int, y: int)
      modifies this
      ensures captions == old(captions) + [Caption(x, y, text)]
    {
      captions := captions + [Caption(x, y, text)];
    }
  }

  /** The display window; `shown` lists the captions of every frame it was handed, in order. */
  class Display {
    var shown: seq<seq<Caption>>

    constructor ()
      ensures shown == []
    {
      shown := [];
    }

    /** `cv2.imshow(name, frame)`. */
    method Show(frame: Frame)
      modifies this
      ensures shown == old(shown) + [frame.captions]
    {
      shown := shown + [frame.captions];
    }
  }

  /** The loop that draws every non-`None` translation at its own `(x, y)`. */
  method DrawTranslations(frame: Frame, translations: seq<Option<TranslatedElement>>)
    modifies frame
    ensures frame.captions == old(frame.captions) + Captions(translations)
  {
    var i := 0;
    while i < |translations|
      invariant 0 <= i <= |translations|
      invariant frame.captions == old(frame.captions) + Captions(translations[..i])
    {
      assert translations[..i + 1][..i] == translations[..i];
      var translation := translations[i];
      if translation.Some? {
        var t := translation.value;
        frame.PutText(t.text, t.x, t.y);
      }
      i := i + 1;
    }
    assert translations[..i] == translations;
  }

  /** What one frame ends with: the captions drawn on it, or the exception that stops it. */
  function FrameCaptions(data: string, translate: string -> TranslateOutcome): (r: Result<seq<Caption>, FrameError>)
    ensures ExtractElements(data).Failure? ==> r == Failure(BadCoordinate(ExtractElements(data).error.literal))
    ensures ExtractElements(data).Success? ==>
      var elements := ExtractElements(data).value;
      (r.Failure? <==> exists k :: 0 <= k < |elements| && translate(elements[k].text).FailsWith?)
  {
    match ExtractElements(data)
    case Failure(InvalidLiteral(literal)) => Failure(BadCoordinate(literal))
    case Success(elements) =>
      GatherFailsIff(elements, translate);
      match Gather(elements, translate)
      case Failure(exception) => Failure(TranslationRaised(exception))
      case Success(results) => Success(Captions(results))
  }

  /**
   * `process_frame` given the detector's output `data` for `frame`: parse,
   * translate, draw, show. When an exception escapes, nothing is drawn and
   * nothing is shown.
   */
  method ProcessFrame(frame: Frame, display: Display, data: string, translate: string -> TranslateOutcome)
    returns (r: Result<(), FrameError>)
    modifies frame, display
    ensures FrameCaptions(data, translate).Success? ==>
      && r.Success?
      && frame.captions == old(frame.captions) + FrameCaptions(data, translate).value
      && display.shown == old(display.shown) + [frame.captions]
    ensures FrameCaptions(data, translate).Failure? ==>
      && r == Failure(FrameCaptions(data, translate).error)
      && frame.captions == old(frame.captions)
      && display.shown == old(display.shown)
  {
    var parsed := ParseDetections(data);
    if parsed.Failure? {
      return Failure(BadCoordinate(parsed.error.literal));
    }
    var translations := Gather(parsed.value, translate);
    if translations.Failure? {
      return Failure(TranslationRaised(translations.error));
    }
    DrawTranslations(frame, translations.value);
    display.Show(frame);
    return Success(());
  }

  /**
   * What is drawn is exactly the elements whose translation succeeded, in
   * extraction order, each at its own (x, y) with its own translation.
   */
  lemma {:induction false} DrawnAreTranslatedElements(elements: seq<TextElement>, translate: string -> TranslateOutcome)
    requires Gather(elements, translate).Success?
    ensures var cs, ix := Captions(Gather(elements, translate).value), TranslatedIndices(elements, translate);
      && |cs| == |ix|
      && forall k :: 0 <= k < |cs| ==>
           cs[k] == Caption(elements[ix[k]].x, elements[ix[k]].y, translate(elements[ix[k]].text).text)
  {
    if elements != [] {
      var last := |elements| - 1;
      var init, e := elements[..last], elements[last];
      DrawnAreTranslatedElements(init, translate);
      var before := Gather(init, translate).value;
      var o := ProcessTextElement(e, translate).value;
      var results := Gather(elements, translate).value;
      assert results == before + [o];
      assert results[..last] == before;
      var cs0, ix0 := Captions(before), TranslatedIndices(init, translate);
      var cs, ix := Captions(results), TranslatedIndices(elements, translate);
      if o.Some? {
        assert translate(e.text).Translated?;
        assert cs == cs0 + [Caption(e.x, e.y, translate(e.text).text)];
        assert ix == ix0 + [last];
      } else {
        assert !translate(e.text).Translated?;
        assert cs == cs0 && ix == ix0;
      }
      forall k | 0 <= k < |cs0|
        ensures cs[k] == Caption(elements[ix[k]].x, elements[ix[k]].y, translate(elements[ix[k]].text).text)
      {
        assert cs[k] == cs0[k] && ix[k] == ix0[k] && init[ix0[k]] == elements[ix0[k]];
      }
    }
  }

  /**
   * An element whose translation raises `ValueError` takes nothing with it: the
   * frame with it and the frame without it fail alike or draw the same captions.
   */
  lemma {:induction false} ValueErrorIsolated(
    before: seq<TextElement>, e: TextElement, after: seq<TextElement>, translate: string -> TranslateOutcome)
    requires translate(e.text) == FailsWithValueError
    ensures Gather(before + [e] + after, translate).Success? == Gather(before + after, translate).Success?
    ensures Gather(before + [e] + after, translate).Failure? ==>
      Gather(before + [e] + after, translate).error == Gather(before + after, translate).error
    ensures Gather(before + [e] + after, translate).Success? ==>
      Captions(Gather(before + [e] + after, translate).value) == Captions(Gather(before + after, translate).value)
    decreases |after|
  {
    if after == [] {
      assert before + [e] + after == before + [e] && before + after == before;
      GatherSnoc(before, e, translate);
      if Gather(before, translate).Success? {
        CaptionsSnoc(Gather(before, translate).value, None);
      }
    } else {
      var init, m := after[..|after| - 1], after[|after| - 1];
      ValueErrorIsolated(before, e, init, translate);
      var l, r := before + [e] + init, before + init;
      assert before + [e] + after == l + [m];
      assert before + after == r + [m];
      GatherSnoc(l, m, translate);
      GatherSnoc(r, m, translate);
      if Gather(l + [m], translate).Success? {
        var o := ProcessTextElement(m, translate).value;
        CaptionsSnoc(Gather(l, translate).value, o);
        CaptionsSnoc(Gather(r, translate).value, o);
      }
    }
  }

  /** Gathering one more task. */
  lemma GatherSnoc(elements: seq<TextElement>, e: TextElement, translate: string -> TranslateOutcome)
    ensures Gather(elements + [e], translate) ==
      match Gather(elements, translate)
      case Failure(exception) => Failure(exception)
      case Success(results) =>
        match ProcessTextElement(e, translate)
        case Escaped(exception) => Failure(exception)
        case Completed(result) => Success(results + [result])
  {
    assert (elements + [e])[..|elements|] == elements;
  }

  /** Drawing one more result. */
  lemma CaptionsSnoc(results: seq<Option<TranslatedElement>>, r: Option<TranslatedElement>)
    ensures Captions(results + [r]) ==
      Captions(results) + (if r.Some? then [Caption(r.value.x, r.value.y, r.value.text)] else [])
  {
    assert (results + [r])[..|results|] == results;
  }

  /** Two fragments: "hi" translates and "bye" raises `ValueError`; only "hi" is drawn, at (10, 10). */
  lemma TwoFragmentExample(translate: string -> TranslateOutcome)
    requires translate("hi") == Translated("\U{43F}\U{440}\U{438}\U{432}\U{435}\U{442}")
    requires translate("bye") == FailsWithValueError
    ensures Gather([TextElement(10, 10, 5, 5, "hi"), TextElement(50, 50, 5, 5, "bye")], translate)
      == Success([Some(TranslatedElement(10, 10, 5, 5, "\U{43F}\U{440}\U{438}\U{432}\U{435}\U{442}")), None])
    ensures Captions([Some(TranslatedElement(10, 10, 5, 5, "\U{43F}\U{440}\U{438}\U{432}\U{435}\U{442}")), None])
      == [Caption(10, 10, "\U{43F}\U{440}\U{438}\U{432}\U{435}\U{442}")]
  {
    TranslatedThenValueError(TextElement(10, 10, 5, 5, "hi"), TextElement(50, 50, 5, 5, "bye"), translate);
  }

  /** Of two elements, the first translates and the second raises `ValueError`: only the first is drawn. */
  lemma TranslatedThenValueError(a: TextElement, b: TextElement, translate: string -> TranslateOutcome)
    requires translate(a.text).Translated? && translate(b.text) == FailsWithValueError
    ensures Gather([a, b], translate)
      == Success([Some(TranslatedElement(a.x, a.y, a.w, a.h, translate(a.text).text)), None])
    ensures Captions([Some(TranslatedElement(a.x, a.y, a.w, a.h, translate(a.text).text)), None])
      == [Caption(a.x, a.y, translate(a.text).text)]
  {
    var ta := TranslatedElement(a.x, a.y, a.w, a.h, translate(a.text).text);
    GatherSnoc([], a, translate);
    GatherSnoc([a], b, translate);
    CaptionsSnoc([], Some(ta));
    CaptionsSnoc([Some(ta)], None);
    assert [] + [a] == [a] && [a] + [b] == [a, b];
    assert [] + [Some(ta)] == [Some(ta)] && [Some(ta)] + [None] == [Some(ta), None];
    assert [] + [Caption(a.x, a.y, ta.text)] == [Caption(a.x, a.y, ta.text)];
  }

  /** Detector output without a single detection row leaves the frame without captions, and nothing raises. */
  lemma FrameWithoutDetections(data: string, translate: string -> TranslateOutcome)
    requires forall k :: 0 <= k < |SplitLines(data)| ==> !IsDetectionRow(Split(SplitLines(data)[k]))
    ensures FrameCaptions(data, translate) == Success([])
  {
    NoDetectionRowsNoElements(SplitLines(data));
  }

  /** A frame from which exactly one element is extracted. */
  lemma OneElementFrame(data: string, e: TextElement, translate: string -> TranslateOutcome)
    requires ExtractElements(data) == Success([e])
    ensures translate(e.text).Translated? ==>
      FrameCaptions(data, translate) == Success([Caption(e.x, e.y, translate(e.text).text)])
    ensures translate(e.text) == FailsWithValueError ==> FrameCaptions(data, translate) == Success([])
    ensures translate(e.text).FailsWith? ==>
      FrameCaptions(data, translate) == Failure(TranslationRaised(translate(e.text).exception))
  {
    assert [e][..|[e]| - 1] == [] && [e][|[e]| - 1] == e;
    match ProcessTextElement(e, translate)
    case Escaped(exception) =>
      assert Gather([e], translate) == Failure(exception);
    case Completed(result) =>
      assert Gather([e], translate) == Success([] + [result]);
      assert [] + [result] == [result];
      assert [result][..|[result]| - 1] == [] && [result][|[result]| - 1] == result;
      if result.Some? {
        var c := Caption(result.value.x, result.value.y, result.value.text);
        assert Captions([result]) == [] + [c];
        assert [] + [c] == [c];
      }
  }

  /**
   * A frame whose detector output is the header and one word row: it shows one
   * caption when the word translates, none on `ValueError`, and nothing at all
   * when another exception escapes.
   */
  lemma OneWordFrame(translate: string -> TranslateOutcome)
    ensures var data := Terminated([JoinWith(HeaderFields, '\t'), JoinWith(WordFields, '\t')]);
      && (translate("hello").Translated? ==>
            FrameCaptions(data, translate) == Success([Caption(10, 20, translate("hello").text)]))
      && (translate("hello") == FailsWithValueError ==> FrameCaptions(data, translate) == Success([]))
      && (translate("hello").FailsWith? ==>
            FrameCaptions(data, translate) == Failure(TranslationRaised(translate("hello").exception)))
  {
    OneWordOutputExtracted();
    OneElementFrame(Terminated([JoinWith(HeaderFields, '\t'), JoinWith(WordFields, '\t')]),
                    TextElement(10, 20, 30, 40, "hello"), translate);
  }
}
