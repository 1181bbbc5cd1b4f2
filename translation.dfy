/**
 * `process_text_element` and the `asyncio.gather` over one task per element.
 * The translation provider is a parameter: a function that tells, for a text,
 * whether the call returns a translation, raises `ValueError`, or raises some
 * other exception.
 */
module Translation {
  import opened Wrappers
  import opened Detections

  /** How the provider's call settles for one text. */
  datatype TranslateOutcome =
    | Translated(text: string)
    | FailsWithValueError
    | FailsWith(exception: string)

  /** The tuple `(x, y, w, h, translation)` a successful task returns. */
  datatype TranslatedElement = TranslatedElement(x: int, y: int, w: int, h: int, text: string)

  /** How one task settles: it returns a tuple or `None`, or an exception escapes it. */
  datatype TaskResult = Completed(value: Option<TranslatedElement>) | Escaped(exception: string)

  /**
   * One element's task: on success the box comes back unchanged with the
   * translation; a `ValueError` is caught and the task returns `None`; any other
   * exception escapes.
   */
  function ProcessTextElement(e: TextElement, translate: string -> TranslateOutcome): (r: TaskResult)
    ensures r.Completed? && r.value.Some? <==> translate(e.text).Translated?
    ensures r.Completed? && r.value.Some? ==>
      var t := r.value.value;
      t.x == e.x && t.y == e.y && t.w == e.w && t.h == e.h && t.text == translate(e.text).text
    ensures r == Completed(None) <==> translate(e.text) == FailsWithValueError
    ensures r.Escaped? <==> translate(e.text).FailsWith?
    ensures r.Escaped? ==> r.exception == translate(e.text).exception
  {
    match translate(e.text)
    case Translated(t) => Completed(Some(TranslatedElement(e.x, e.y, e.w, e.h, t)))
    case FailsWithValueError => Completed(None)
    case FailsWith(exception) => Escaped(exception)
  }

  /**
   * `asyncio.gather` over the tasks: the results in the order the tasks were
   * given, or the exception that escaped a task.
   */
  function Gather(elements: seq<TextElement>, translate: string -> TranslateOutcome)
    : (r: Result<seq<Option<TranslatedElement>>, string>)
    ensures r.Success? ==> |r.value| == |elements|
    ensures r.Success? ==> forall k :: 0 <= k < |elements| ==>
      ProcessTextElement(elements[k], translate) == Completed(r.value[k])
  {
    if elements == [] then Success([])
    else
      match Gather(elements[..|elements| - 1], translate)
      case Failure(exception) => Failure(exception)
      case Success(results) =>
        match ProcessTextElement(elements[|elements| - 1], translate)
        case Escaped(exception) => Failure(exception)
        case Completed(result) => Success(results + [result])
  }

  /** The gather fails exactly when the translation of some element raises something other than `ValueError`. */
  lemma {:induction false} GatherFailsIff(elements: seq<TextElement>, translate: string -> TranslateOutcome)
    ensures Gather(elements, translate).Failure? <==>
      exists k :: 0 <= k < |elements| && translate(elements[k].text).FailsWith?
  {
    if elements != [] {
      var init := elements[..|elements| - 1];
      GatherFailsIff(init, translate);
      assert forall k :: 0 <= k < |init| ==> init[k] == elements[k];
    }
  }

  /** The exception that escapes is the one of the first element, in task order, whose translation raised it. */
  lemma {:induction false} GatherFailsAtFirst(elements: seq<TextElement>, translate: string -> TranslateOutcome)
    requires Gather(elements, translate).Failure?
    ensures exists k ::
      && 0 <= k < |elements| && translate(elements[k].text) == FailsWith(Gather(elements, translate).error)
      && forall j :: 0 <= j < k ==> !translate(elements[j].text).FailsWith?
  {
    var init := elements[..|elements| - 1];
    assert forall k :: 0 <= k < |init| ==> init[k] == elements[k];
    if Gather(init, translate).Failure? {
      GatherFailsAtFirst(init, translate);
    } else {
      GatherFailsIff(init, translate);
    }
  }

  /** The positions of the elements whose translation succeeds, in increasing order. */
  function TranslatedIndices(elements: seq<TextElement>, translate: string -> TranslateOutcome): (ix: seq<nat>)
    ensures forall k :: 0 <= k < |ix| ==> ix[k] < |elements|
    ensures forall j, k :: 0 <= j < k < |ix| ==> ix[j] < ix[k]
    ensures forall i :: 0 <= i < |elements| ==> (i in ix <==> translate(elements[i].text).Translated?)
  {
    if elements == [] then []
    else
      var last := |elements| - 1;
      var init := elements[..last];
      assert forall i :: 0 <= i < last ==> init[i] == elements[i];
      TranslatedIndices(init, translate) + (if translate(elements[last].text).Translated? then [last] else [])
  }
}
