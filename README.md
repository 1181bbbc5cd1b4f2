# Text translater: the per-frame parser and result assembly, in Dafny

The program reads camera frames, hands each frame to Tesseract, translates every
recognised word to Russian and writes the translations back onto the frame at the
words' positions. This project models the logic of one frame in `process_frame`
and `process_text_element` (`text_translater.py`):

- **Extraction** (`detections.dfy`, on top of `pystrings.dfy`). The detector's
  output is split into lines (`str.splitlines()`), each line into whitespace
  separated fields (`str.split()`). A line is kept when it has exactly twelve
  fields and its first field is all digits (`str.isdigit()`). A kept line becomes
  `(int(f6), int(f7), int(f8), int(f9), f11)`. An `int()` that fails raises
  `ValueError`; nothing catches it, so the whole frame stops. The loop is the
  method `ParseDetections`, proved equal to the function `ExtractElements`.
- **Translation** (`translation.dfy`). `process_text_element` gives the box back
  unchanged with the translation. When the translation raises `ValueError` it
  returns `None`; any other exception escapes the task. `asyncio.gather` returns
  the task results in task order, or re-raises an exception that escaped.
  The translation provider is a function parameter from a text to its outcome.
- **Drawing** (`pipeline.dfy`). The draw loop puts every non-`None` result on the
  frame at its own `(x, y)`; the frame is then shown. The frame is a class whose
  `captions` field logs the `cv2.putText` calls. The display is a class whose
  `shown` field logs the frames handed to `cv2.imshow`. `ProcessFrame` is the
  whole step; the OCR output `data` is its parameter.

On these points the model follows what the code does, which may differ from what one would expect of such a tool:

- `gather` keeps task order, so captions follow extraction order.
- Only `ValueError` is caught per element. Any other exception from the
  translation aborts the whole frame: nothing is drawn and nothing is shown.
- A non-integer coordinate is converted outside the `try`, so it aborts the frame
  too (`BadCoordinateRaises`). It is not a per-element error.
- Neither exception is caught anywhere in the program. `ProcessFrame` returns it.
  In the program it leaves `capture_frames` (text_translater.py:60) and `main`
  (text_translater.py:77), ending the capture loop, and `cap.release()` and
  `cv2.destroyAllWindows()` (text_translater.py:79-80) never run.
- Coordinates are whatever `int()` returns, negative ones included. The code does
  not check that they are at least 0.
- Empty texts never reach translation. This is not an explicit check: a row with
  an empty text has only eleven fields, and `str.split()` never yields an empty
  field (`Split`, `ParseRow`).

`str.isspace()` is modelled with Python's full set of whitespace characters:
ASCII space, `\t`, `\n`, `\v`, `\f`, `\r` and `\x1c` to `\x1f`, plus the
non-ASCII ones. `str.splitlines()` is modelled with Python's full set of line
boundaries.

## Model

| member | source | states |
|---|---|---|
| PyStrings.IsSpace | text_translater.py:33 | definition: the characters Python's `str.isspace()` accepts, on which `str.split()` splits |
| PyStrings.IsLineBoundary | text_translater.py:32 | definition: the characters at which `str.splitlines()` ends a line |
| PyStrings.IsDigitString | text_translater.py:34 | definition: `str.isdigit()` over ASCII digits, false on the empty string (non-ASCII digits under "Left out") |
| PyStrings.Split | text_translater.py:33 | every field produced by `str.split()` is non-empty and contains no whitespace |
| PyStrings.SplitJoinWith | text_translater.py:33 | joining non-empty whitespace-free fields with one whitespace character and splitting gives the same fields back |
| PyStrings.SplitKeepsNonSpace | text_translater.py:33 | the fields, concatenated, are exactly the non-whitespace characters of the line in order: splitting drops whitespace only |
| PyStrings.SplitLines | text_translater.py:32 | no line produced by `str.splitlines()` contains a line boundary |
| PyStrings.SplitLinesTerminated | text_translater.py:32 | lines without boundaries, each ended by "\n", split back into the same lines, with no extra empty last line |
| PyStrings.ParseInt | text_translater.py:35 | `int()` succeeds only on a non-empty string without whitespace (no limit on the number of digits, see "Left out") |
| PyStrings.ParseDecimalString | text_translater.py:35 | under the modelled `int()`, which has no digit limit, `int(str(n)) == n` for every integer n, negative ones included |
| Detections.IsDetectionRow | text_translater.py:34 | definition: the shape test, exactly twelve fields with an all-digit first field |
| Detections.RowElement | text_translater.py:35 | a twelve-field row with digits first is accepted iff fields 6 to 9 all convert; x, y, w, h are their values and the text is field 11; otherwise the first field from 6 to 9 that does not convert is the one reported |
| Detections.ParseRow | text_translater.py:33-35 | a line is skipped iff its split is not twelve fields with an all-digit first field; an accepted element's text is non-empty and has no whitespace |
| Detections.ExtractLines | text_translater.py:32-35 | every element of a successful parse has a non-empty, whitespace-free text |
| Detections.DetectionRows | text_translater.py:32-34 | reference definition: the lines that pass the shape test, as field lists, in line order; there are at most as many as lines and each passes the test; `ExtractedFromDetectionRows` ties the parse to it |
| Detections.ExtractElements | text_translater.py:32-35 | the parse of the whole output succeeds iff no line raises; on success it has one element per line passing the shape test, each with a non-empty, whitespace-free text |
| Detections.ParseDetections | text_translater.py:32-35 | the loop returns exactly `ExtractElements(data)`, so equal detector output gives equal elements; every text is non-empty and whitespace-free |
| Detections.FailureExtends | text_translater.py:32-35 | once the lines read so far raise, the whole parse raises the same exception |
| Detections.ExtractedFromDetectionRows | text_translater.py:32-35 | a successful parse has one element per accepted line, in line order, built from that line's fields 6 to 9 and 11 |
| Detections.ExtractSucceedsIff | text_translater.py:34-35 | the parse raises iff some accepted line has a field 6 to 9 that `int()` rejects |
| Detections.ExtractFailsAtFirstRaise | text_translater.py:32-35 | the exception raised is that of the first line that raises; no earlier line raises |
| Detections.SkippedLineIgnored | text_translater.py:33-34 | inserting a line that fails the shape test anywhere changes neither the elements nor whether the parse raises |
| Detections.NoDetectionRowsNoElements | text_translater.py:32-35 | output with no line of the detection shape yields no elements and raises nothing |
| Detections.HeaderRowSkipped | text_translater.py:34 | the detector's column header line (twelve fields, first "level") is skipped |
| Detections.ShortRowSkipped | text_translater.py:34 | a malformed row of eight fields is skipped without raising |
| Detections.LongRowSkipped | text_translater.py:34 | a row whose text contains a space (thirteen fields) is skipped |
| Detections.WordRowAccepted | text_translater.py:34-35 | the row `5 1 1 1 1 1 10 20 30 40 96 hello` becomes the element (10, 20, 30, 40, "hello") |
| Detections.BadCoordinateRaises | text_translater.py:35 | a detection row whose left coordinate is "1O" raises `ValueError` on that literal |
| Detections.OneWordOutputExtracted | text_translater.py:32-35 | the header followed by one word row yields exactly that one element |
| Translation.ProcessTextElement | text_translater.py:15-22 | success returns x, y, w, h unchanged with the translation; `ValueError` returns `None`; any other exception escapes with its own identity |
| Translation.Gather | text_translater.py:40-41 | a successful gather has one result per element, and result k is what element k's task returned |
| Translation.GatherFailsIff | text_translater.py:19-41 | the gather raises iff some element's translation raises an exception other than `ValueError` |
| Translation.GatherFailsAtFirst | text_translater.py:41 | the exception raised is that of an element whose translation raised it, with no earlier element raising one |
| Translation.TranslatedIndices | text_translater.py:44-45 | the positions of the elements whose translation succeeds, strictly increasing; a position is listed iff its translation succeeds |
| Pipeline.Captions | text_translater.py:44-47 | reference definition of what the draw loop draws: at most one caption per result, and none at all iff every result is `None`; `DrawnAreTranslatedElements` proves the content |
| Pipeline.Frame.PutText | text_translater.py:47 | drawing appends one caption with its text and origin to the frame |
| Pipeline.Display.Show | text_translater.py:50 | showing records the frame's captions as they are at that moment |
| Pipeline.DrawTranslations | text_translater.py:44-47 | the frame's captions become its old captions followed by `Captions(translations)` |
| Pipeline.FrameCaptions | text_translater.py:32-47 | a bad coordinate ends the frame with that literal; otherwise the frame fails iff some element's translation raises an exception other than `ValueError` |
| Pipeline.ProcessFrame | text_translater.py:24-50 | on success the frame gets exactly the captions `FrameCaptions(data, translate)` and is shown once; when an exception escapes (bad coordinate or translation), nothing is drawn, nothing is shown, and that exception is returned |
| Pipeline.DrawnAreTranslatedElements | text_translater.py:41-47 | the captions are exactly the successfully translated elements, in extraction order, each at its own (x, y) with its own translation: a subsequence of the elements |
| Pipeline.ValueErrorIsolated | text_translater.py:19-22 | removing an element whose translation raised `ValueError` changes neither whether the frame raises, nor the exception, nor the captions of its siblings |
| Pipeline.TranslatedThenValueError | text_translater.py:15-22 | for any two elements, the first translated and the second failing with `ValueError`, the gather gives the first's box with its translation and `None`, and only the first is drawn, at its own (x, y) |
| Pipeline.TwoFragmentExample | text_translater.py:15-22 | of "hi" at (10, 10), translated, and "bye" at (50, 50), failing with `ValueError`, only the translation of "hi" is drawn, at (10, 10) |
| Pipeline.FrameWithoutDetections | text_translater.py:32-47 | a frame whose detector output has no detection row gets no captions, and nothing raises |
| Pipeline.OneElementFrame | text_translater.py:41-47 | a frame with one element gets one caption when it translates, none on `ValueError`, and raises any other exception |
| Pipeline.OneWordFrame | text_translater.py:27-47 | the header and one word row give one caption at (10, 20), none, or an escaping exception, by the word's translation outcome |

## Left out

- The capture loop and `main` (text_translater.py:52-84): the camera, its settings, the resize by the floating-point factor 0.5, the quit key, and releasing the camera and windows. These are device I/O.
- The OCR call `pytesseract.image_to_data` (text_translater.py:26-27) is a foreign library. Its output string is the parameter `data`. The Tesseract path (text_translater.py:8) is configuration.
- The translation provider (text_translater.py:10-13) is a network call. It is the parameter `translate`. The same text therefore has the same outcome everywhere in a frame; a provider that answers two equal texts differently is not modelled.
- Asyncio, `ThreadPoolExecutor` and scheduling (text_translater.py:38-41) are left out. Of `gather` the model keeps the task order and the fact that an escaping exception is re-raised. Python re-raises the first exception in time; the model picks the first element in task order. Tasks still running after a failure are not modelled.
- The region-of-interest slice (text_translater.py:18) is a numpy operation whose result is unused. It does not raise on integer bounds.
- The diagnostic `print` of a caught `ValueError` (text_translater.py:22), and the font, colour and pixels of `cv2.putText` and `cv2.imshow` (text_translater.py:47, 50). Drawing is a caption log entry; showing is a log entry on the display.
- PyStrings.IsDigitString: `str.isdigit()` is modelled for the ASCII digits only. Python also accepts other Unicode digits (for example superscripts), so a line whose first field uses them is skipped by the model but kept by Python.
- PyStrings.ParseInt: `int()` is modelled for ASCII digits. Python also converts other Unicode decimal digits, where the model reports `ValueError`. Stripping of surrounding whitespace is not modelled, because fields never contain whitespace.
- PyStrings.ParseInt: Python's `int()` on a string raises `ValueError` when the literal has more digits than `sys.get_int_max_str_digits()` allows (4300 by default since Python 3.11 and the 3.9 and 3.10 security releases; configurable at run time). The model converts literals of any length, so a detection row with such a coordinate is accepted by the model while Python aborts the frame at text_translater.py:35. For the same reason `ParseDecimalString` holds under the modelled `int()` only; in Python `str(n)` itself raises beyond that limit.
- Pipeline.Frame.PutText: `cv2.putText` (text_translater.py:47) needs its origin within the range of a C `int` and raises outside it; the model appends the caption for every integer origin.
