# Gate plate recognition — a verified model

This project models the plate-recognition core of the gate system (`mainmain.py`):

- **OCR post-processing** (`TextNormalizer`): trimming, upper-casing, removal of spaces and
  newlines, the letter-to-digit confusion chain O→0, I→1, L→1, S→5, Z→2, B→8, G→6, Q→0, and the
  final deletion of everything outside `A-Z0-9`.
- **Plate-format validation** (`PlateFormat`): the three anchored patterns, the length guard,
  and the early-return loop over the patterns. Each pattern is a list of bounded character-class
  groups. The validator runs a greedy recogniser. That recogniser is proved equal to the
  regular-expression meaning, "the text splits into pieces of the right class and length".
- **Candidate-region filtering** (`RegionDetector`): the contour filter (area, width, height,
  aspect ratio), the stable sort by `w*h`, largest first, and truncation to the top three.
- **Plate-text extraction** (`TextExtractor`): clipping the crop to the frame, the early `""`
  for an empty crop, and the `""` fallback on an OCR exception.
- **Detection log** (`DetectionLog`): read the entries (or start fresh after invalid JSON),
  append one entry, write the list back.
- **Recognition system** (`PlateRecognition`): `process_frame`'s loop over the candidate
  regions, `handle_plate_detection`'s cooldown gate, and the loop in `run` that hands each
  reported plate to the gate.

The constants of `Config` are in `Config`.

Inputs of the model stand for what the program obtains from libraries:

- `contours`: the `(contourArea, boundingRect)` pairs from OpenCV.
- `ocr`: the engine's answer per OCR call and crop, either raw text or an exception.
- The clock reading, the log timestamp, and whether the log file access raises.

The log file is represented by what parsing it yields: `Entries(list)` or `Invalid`.

Proved results that tie the pipeline together:

- The authorised plate `R6978SF` normalises to `R69785F`. That text has five digits in a row,
  so validation rejects it.
- More generally, no normalised text equals `R6978SF`. So `R6978SF` can never be reported,
  handled or logged. Among logged entries, only `R5477DP` is ever `authorized`
  (`PlateRecognition.PipelineNeverLogsR6978SF`).
- In the same way `B1234CD` normalises to `81234CD`. A leading digit is rejected, so a plate
  whose first letter is one of O, I, L, S, Z, B, G or Q is never reported. Such a letter
  elsewhere only changes the reported text (`AB12CD` is reported as `A812CD`).
- Accepted detections are spaced at least `DETECTION_COOLDOWN` seconds apart, per step between
  them. No monotonic clock is needed for this.
- `last_detection_time` starts at `0`, not at "no detection yet". So every detection while the
  clock reads less than 3 is ignored. The model follows the code here.

## Model

| member | source | states |
|---|---|---|
| TextNormalizer.TrimLeft | mainmain.py:151 | the left half of `text.strip()`: the result is a suffix of the input, every dropped character is whitespace, and the result does not start with whitespace |
| TextNormalizer.TrimRight | mainmain.py:151 | the right half of `text.strip()`: the result is a prefix of the input, every dropped character is whitespace, and the result does not end with whitespace |
| TextNormalizer.UpperChar | mainmain.py:151 | `upper()` on one character: a lower-case letter becomes the capital at the same alphabet position, every other character is unchanged |
| TextNormalizer.Upper | mainmain.py:151 | `upper()` keeps the length |
| TextNormalizer.RemoveAll | mainmain.py:151 | `replace(' ', '')` and `replace('\n', '')`: no occurrence is left, and every other character survives |
| TextNormalizer.ReplaceAll | mainmain.py:153-160 | one global `replace`: same length, every occurrence of the old letter becomes the new one, other characters are untouched |
| TextNormalizer.Substitute | mainmain.py:153-160 | after the eight replacements in order, none of O I L S Z B G Q is left; length kept |
| TextNormalizer.KeepPlateChars | mainmain.py:162 | `re.sub(r'[^A-Z0-9]', '', …)`: only A-Z and 0-9 remain, each from the input |
| TextNormalizer.PostProcessOcrResult | mainmain.py:149-164 | the output is normalised (only A-Z0-9, never a confusable letter) and never longer than the input |
| TextNormalizer.NormalizedIsFixedPoint | mainmain.py:149-164 | a normalised text is returned unchanged |
| TextNormalizer.FixedPointIff | mainmain.py:149-164 | a text is left unchanged exactly when it is normalised |
| TextNormalizer.PostProcessIdempotent | mainmain.py:149-164 | post-processing twice is post-processing once |
| TextNormalizer.PostProcessIsTableLookup | mainmain.py:151-162 | the whole chain equals an independent per-character table (upper-case, confuse, keep A-Z0-9), so the order of the replacements does not matter |
| TextNormalizer.RemoveAllAppend | mainmain.py:151 | character removal distributes over concatenation |
| TextNormalizer.KeepPlateCharsAppend | mainmain.py:162 | the final filter distributes over concatenation |
| TextNormalizer.SubstituteAppend | mainmain.py:153-160 | the replacement chain distributes over concatenation |
| TextNormalizer.TableIgnoresTrimLeft | mainmain.py:151 | stripping leading whitespace does not change the table result |
| TextNormalizer.TableIgnoresTrimRight | mainmain.py:151 | stripping trailing whitespace does not change the table result |
| TextNormalizer.ExampleLowerCase | mainmain.py:151-162 | `" o1l "` becomes `"011"` |
| TextNormalizer.ExampleAuthorizedPlateRewritten | mainmain.py:149-164 | the authorised plate `R6978SF` becomes `R69785F` |
| TextNormalizer.ExampleAuthorizedPlateKept | mainmain.py:149-164 | the authorised plate `R5477DP` is unchanged |
| TextNormalizer.ExampleLeadingB | mainmain.py:158 | `B1234CD` becomes `81234CD` |
| TextNormalizer.NormalizedIsNotR6978SF | mainmain.py:151-162 | no post-processed text equals `R6978SF` |
| PlateFormat.Run | mainmain.py:93-95 | the longest prefix of one character class: all its characters are in the class and the next one is not |
| PlateFormat.MatchesAny | mainmain.py:193-196 | the loop returns true exactly when some pattern matches |
| PlateFormat.ValidatePlateFormat | mainmain.py:188-196 | acceptance implies at least 4 characters; empty and shorter texts are rejected |
| PlateFormat.GreedyDecidesLanguage | mainmain.py:92-96 | for patterns whose adjacent groups cannot take the same character, the greedy recogniser accepts exactly the texts the regular expression matches |
| PlateFormat.PatternsSeparated | mainmain.py:92-96 | all three patterns meet that condition |
| PlateFormat.Pattern3WithinPattern1 | mainmain.py:93-95 | every text pattern 3 matches, pattern 1 matches |
| PlateFormat.Pattern1WithinPattern2 | mainmain.py:93-94 | every text pattern 1 matches, pattern 2 matches |
| PlateFormat.PatternContainment | mainmain.py:92-96 | the same containments for `pattern.match`, including `$` before a final newline |
| PlateFormat.ValidateTriesThree | mainmain.py:188-196 | validation is the length guard and any of the three patterns |
| PlateFormat.ValidateIsPattern2 | mainmain.py:188-196 | validation equals "at least 4 characters and pattern 2 matches" |
| PlateFormat.ValidateMeaning | mainmain.py:188-196 | the same, stated with the regular-expression meaning |
| PlateFormat.BlankFreePattern2 | mainmain.py:93-94 | on text without whitespace, pattern 2 matches only what pattern 1 matches |
| PlateFormat.NormalizedValidation | mainmain.py:188-196 | a normalised text validates exactly when it has at least 4 characters and is 1-2 letters, 1-4 digits, 1-3 letters |
| PlateFormat.LetterDigitsLettersValid | mainmain.py:188-196 | every one-letter, four-digit, two-letter text is accepted |
| PlateFormat.ExampleValid | mainmain.py:188-196 | `B1234CD` is accepted |
| PlateFormat.ExampleValidAuthorized | mainmain.py:188-196 | `R5477DP` is accepted |
| PlateFormat.ExampleTooShort | mainmain.py:190-191 | `A1` is rejected by the length guard |
| PlateFormat.FiveDigitsRejected | mainmain.py:93-95 | a normalised text with a letter and then five digits is rejected |
| PlateFormat.LeadingDigitRejected | mainmain.py:93-95 | a normalised text that starts with a digit is rejected |
| PlateFormat.ExampleFiveDigits | mainmain.py:188-196 | `R69785F` (the normalised `R6978SF`) is rejected |
| PlateFormat.ExampleLeadingDigit | mainmain.py:188-196 | `81234CD` (the normalised `B1234CD`) is rejected |
| RegionDetector.AspectRatioExact | mainmain.py:116-118 | `2.0 <= w/h <= 4.5` holds exactly when `2*h <= w` and `2*w <= 9*h` |
| RegionDetector.CandidatesMembers | mainmain.py:112-120 | a box is a candidate exactly when it is the bounding box of an input contour that passes the area, width, height and ratio tests |
| RegionDetector.SortIsPermutation | mainmain.py:122 | sorting keeps exactly the same boxes |
| RegionDetector.SortIsSorted | mainmain.py:122 | the sorted list is non-increasing in `w*h` |
| RegionDetector.SortIsStable | mainmain.py:122 | boxes of equal area keep their input order |
| RegionDetector.SortIsPythonSort | mainmain.py:122 | any sorted, stable reordering equals the model's sort, so the model's sort is `sort(key=w*h, reverse=True)` |
| RegionDetector.PlateAreasCount | mainmain.py:122-123 | the result has `min(3, number of candidates)` boxes |
| RegionDetector.PlateAreasSound | mainmain.py:112-123 | every returned box comes from a contour passing all tests |
| RegionDetector.PlateAreasOrdered | mainmain.py:122-123 | the result is sorted, and equal-area boxes keep their input order |
| RegionDetector.PlateAreasMaximal | mainmain.py:122-123 | no passing box with strictly larger area than a returned box is dropped |
| RegionDetector.DetectPlateAreas | mainmain.py:107-123 | the loop builds the candidates, sorts and truncates; the result is `PlateAreas(contours)`, with its count, soundness, order and maximality |
| TextExtractor.ClipRoi | mainmain.py:168-171 | the crop covers exactly the rows and columns that lie in both the box and the frame |
| TextExtractor.ExtractPlateText | mainmain.py:166-186 | the result is always a normalised text |
| TextExtractor.EmptyCropIff | mainmain.py:169-173 | the crop is empty exactly when the box starts at or beyond the frame's bottom or right edge |
| TextExtractor.EmptyCropSkipsOcr | mainmain.py:173-174 | an empty crop gives `""` whatever the OCR engine would answer |
| TextExtractor.ExtractPlateTextOutcome | mainmain.py:176-186 | otherwise an OCR exception gives `""` and raw text gives its post-processed form |
| DetectionLog.AppendKeepsEntries | mainmain.py:69-80 | a valid log keeps all entries in order and gains the new one at the end |
| DetectionLog.AppendAfterInvalid | mainmain.py:76-80 | after invalid JSON the log becomes the single new entry |
| DetectionLog.AppendAllReadsBack | mainmain.py:64-84 | after several appends the log reads back as the old entries, then the new ones in order |
| DetectionLog.FreshLogReadsBack | mainmain.py:67-80 | starting from an empty or invalid log, the file ends up holding exactly the appended entries |
| DetectionLog.Logger.LogDetection | mainmain.py:56-87 | without an I/O exception the file becomes the recovered entries plus the new entry; with one, the file is unchanged |
| PlateRecognition.Texts | mainmain.py:223-227 | one extracted text per region, each normalised |
| PlateRecognition.ReportsMembers | mainmain.py:223-233 | a plate is reported exactly when some region's text is non-empty and validates, with that region's box; never more plates than regions |
| PlateRecognition.AcceptedIndices | mainmain.py:223-233 | the positions of the accepted texts: strictly increasing, each accepted, and every accepted position present |
| PlateRecognition.ReportsFollowIndices | mainmain.py:223-233 | the k-th report is the text and box of the k-th accepted region: one report per accepted region, in region order |
| PlateRecognition.RecognisedSound | mainmain.py:223-233 | every reported plate has an accepted, normalised text and one of the candidate boxes |
| PlateRecognition.ReportedPlatesAreCompact | mainmain.py:223-233 | every reported text is 1-2 letters, 1-4 digits, 1-3 letters with no blanks |
| PlateRecognition.StatusFor | mainmain.py:250-257 | the status is `authorized` exactly for the plates in `AUTHORIZED_PLATES` |
| PlateRecognition.OnlyR5477DPAuthorized | mainmain.py:250-257 | of normalised texts, only `R5477DP` gets `authorized` |
| PlateRecognition.AcceptedIsSubsequence | mainmain.py:247-259 | the accepted calls are among the calls made |
| PlateRecognition.AcceptedSpacing | mainmain.py:247-259 | the first accepted call is at least 3 after the initial time; any two accepted calls are at least 3 apart per step between them |
| PlateRecognition.HandleAllTime | mainmain.py:247-259 | after a series of calls the last detection time is the last accepted call's time, or unchanged |
| PlateRecognition.HandleAllLog | mainmain.py:247-259 | after a series of calls the log is the old entries followed by those of the accepted calls whose file access succeeded |
| PlateRecognition.LoggedWithoutFaults | mainmain.py:247-259 | without file faults, exactly the accepted calls are logged, in order |
| PlateRecognition.LoggedStatus | mainmain.py:250-257 | every logged entry's status is `authorized` exactly for authorised plates, and its plate and timestamp come from a call |
| PlateRecognition.HandleAllAppend | mainmain.py:277-278 | handling calls one by one composes |
| PlateRecognition.FreshGateIgnoresEarlyDetections | mainmain.py:247-248 | a fresh gate ignores every detection before the clock reads 3 |
| PlateRecognition.CooldownScenario | mainmain.py:247-259 | detections at 100, 101 and 104: the first and third are logged with their statuses, the second is ignored |
| PlateRecognition.PipelineNeverLogsR6978SF | mainmain.py:223-259 | plates reported for a frame and handled are never logged as `R6978SF`, and only `R5477DP` is logged as `authorized` |
| PlateRecognition.PlateRecognitionSystem.constructor | mainmain.py:199-211 | the gate starts with last detection time 0 |
| PlateRecognition.PlateRecognitionSystem.ProcessFrame | mainmain.py:216-237 | the reported plates are `Recognised` over `PlateAreas(contours)`: at most 3, each accepted, normalised and with a candidate box |
| PlateRecognition.PlateRecognitionSystem.HandlePlateDetection | mainmain.py:239-259 | within the cooldown nothing changes; otherwise one entry with the right status is logged (unless the file access fails) and the last detection time becomes the clock reading |
| PlateRecognition.PlateRecognitionSystem.HandleDetectedPlates | mainmain.py:277-278 | handling a frame's plates in order gives the state of the whole series of calls |

## Left out

- Image processing (`preprocess_for_detection`, `preprocess_for_ocr`) is left out. It is OpenCV work on pixels. The contours and the OCR answers are inputs instead.
- `cv2.findContours`, `contourArea` and `boundingRect` are left out; their results are inputs. A bounding box is taken to be at least one pixel wide and high, as OpenCV guarantees.
- The OCR engine (`pytesseract.image_to_string` and its configuration) is an input function. It may raise an exception.
- Drawing on the frame (`cv2.rectangle`, `cv2.putText`) is left out. It can change later OCR answers within a frame, so the OCR input is indexed by call position as well as by crop.
- An exception raised by `preprocess_for_ocr`, outside the `try` in `extract_plate_text`, is not modelled.
- The camera loop (`run`), `cleanup`, the window, the key handling and opening the camera are left out, because they are I/O. Only the inner loop over a frame's reported plates is modelled.
- File I/O and JSON encoding are left out. The file's content is what parsing it yields. A JSON array and JSON lines both give a list of entries. A decoding error gives `Invalid`.
- Any other exception while logging is a boolean input; the file is then left unchanged. A failure after the file was truncated is not modelled.
- `datetime.now().isoformat()` is an opaque timestamp string.
- `time.time()` is a real-valued input; float rounding is not modelled.
- TextNormalizer.UpperChar: only ASCII letters are upper-cased. Python's Unicode `upper()` is not modelled. For example, `ß` becomes `SS` in Python but is deleted here.
- TextNormalizer.IsPySpace: the whitespace stripped is the ASCII set; Unicode spaces are not modelled. They are deleted by the final filter either way.
- PlateFormat.InClass: `[A-Z]`, `\d` and `\s` are ASCII. Python's Unicode `\d` and `\s` are not modelled.
- RegionDetector.AspectRatio: `w / h` is exact real division. Float rounding is not modelled; for pixel-sized integers it does not change the comparison with 2.0 and 4.5.
- The stepper-motor actuator is not part of this model; its import is commented out in `mainmain.py`.
- `app.py`, `setup_db.py` and `camera/capture.py` are not part of this model. They are web, database and capture plumbing.
