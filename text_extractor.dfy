/**
 * Plate-text extraction (PlateDetector.extract_plate_text): crop the frame to the box,
 * skip an empty crop, run OCR on the prepared crop and post-process its text. The image
 * conditioning and the OCR engine are outside the model: `ocr` gives the engine's answer
 * for the prepared crop, which may be an exception.
 */
module TextExtractor {
  import opened Config
  import opened TextNormalizer
  import opened RegionDetector

  /** image.shape[0] and image.shape[1]. */
  datatype FrameShape = FrameShape(height: nat, width: nat)

  /** The crop image[top:bottom, left:right]. */
  datatype Roi = Roi(top: nat, bottom: nat, left: nat, right: nat)

  /** pytesseract.image_to_string either returns raw text or raises. */
  datatype OcrResult = OcrText(raw: string) | OcrFault

  function Max(a: nat, b: nat): nat { if a >= b then a else b }

  predicate CoversRow(roi: Roi, r: int) { roi.top <= r < roi.bottom }
  predicate CoversColumn(roi: Roi, c: int) { roi.left <= c < roi.right }

  /**
   * Python's slicing along each axis after y_max = min(y + h, H) and x_max = min(x + w, W):
   * the start is clamped to the axis length, and a stop below the start gives nothing.
   */
  function ClipRoi(frame: FrameShape, box: Box): (roi: Roi)
    ensures roi.top <= roi.bottom <= frame.height && roi.left <= roi.right <= frame.width
    ensures forall r :: CoversRow(roi, r) <==> box.y <= r < box.y + box.h && 0 <= r < frame.height
    ensures forall c :: CoversColumn(roi, c) <==> box.x <= c < box.x + box.w && 0 <= c < frame.width
  {
    var yMax := Min(box.y + box.h, frame.height);
    var xMax := Min(box.x + box.w, frame.width);
    var top := Min(box.y, frame.height);
    var left := Min(box.x, frame.width);
    Roi(top, Max(top, yMax), left, Max(left, xMax))
  }

  predicate IsEmptyCrop(roi: Roi) { roi.bottom - roi.top == 0 || roi.right - roi.left == 0 }

  /** extract_plate_text: "" for an empty crop or an OCR exception, else the post-processed text. */
  function ExtractPlateText(frame: FrameShape, box: Box, ocr: Roi -> OcrResult): (text: string)
    ensures IsNormalized(text)
  {
    var plateRoi := ClipRoi(frame, box);
    if IsEmptyCrop(plateRoi) then ""
    else
      match ocr(plateRoi)
      case OcrText(raw) => PostProcessOcrResult(raw)
      case OcrFault => ""
  }

  /** Since a bounding box is at least one pixel wide and high, the crop is empty exactly when the box starts outside the frame. */
  lemma EmptyCropIff(frame: FrameShape, box: Box)
    ensures IsEmptyCrop(ClipRoi(frame, box)) <==> box.y >= frame.height || box.x >= frame.width
  {
    var roi := ClipRoi(frame, box);
    if box.y < frame.height {
      assert CoversRow(roi, box.y);
    }
    if box.x < frame.width {
      assert CoversColumn(roi, box.x);
    }
  }

  /** For an empty crop the OCR engine is never consulted: any engine gives "". */
  lemma EmptyCropSkipsOcr(frame: FrameShape, box: Box, ocr1: Roi -> OcrResult, ocr2: Roi -> OcrResult)
    requires box.y >= frame.height || box.x >= frame.width
    ensures ExtractPlateText(frame, box, ocr1) == "" && ExtractPlateText(frame, box, ocr2) == ""
  {
    EmptyCropIff(frame, box);
  }

  /** Otherwise the text is what post-processing makes of the engine's answer, and "" on an exception. */
  lemma ExtractPlateTextOutcome(frame: FrameShape, box: Box, ocr: Roi -> OcrResult)
    requires box.y < frame.height && box.x < frame.width
    ensures ocr(ClipRoi(frame, box)).OcrFault? ==> ExtractPlateText(frame, box, ocr) == ""
    ensures ocr(ClipRoi(frame, box)).OcrText? ==>
              ExtractPlateText(frame, box, ocr) == PostProcessOcrResult(ocr(ClipRoi(frame, box)).raw)
  {
    EmptyCropIff(frame, box);
  }
}
