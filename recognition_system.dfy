/**
 * The recognition system (PlateRecognitionSystem): per frame, the top candidate regions
 * are read by OCR and the texts that pass validation are reported; each reported plate is
 * then handled by a cooldown gate that classifies it against the authorised list and logs
 * it. Clock readings, the timestamps written to the log and file faults are inputs.
 */
module PlateRecognition {
  import opened Config
  import opened TextNormalizer
  import opened PlateFormat
  import opened RegionDetector
  import opened TextExtractor
  import opened DetectionLog

  /** {'text': plate_text, 'bbox': (x, y, w, h)} */
  datatype DetectedPlate = DetectedPlate(text: string, bbox: Box)

  /**
   * The engine's answer for the i-th OCR call of a frame. The frame is drawn on between
   * calls (rectangles and texts), so the answer may depend on the call's position as well
   * as on the crop.
   */
  function OcrCall(ocr: (nat, Roi) -> OcrResult, i: nat): Roi -> OcrResult {
    r => ocr(i, r)
  }

  /** process_frame reports a text when it is non-empty and validates. */
  predicate IsAccepted(text: string) {
    text != "" && ValidatePlateFormat(text)
  }

  /** The texts extracted for the candidate regions, one OCR call per region in order. */
  function Texts(frame: FrameShape, areas: seq<Box>, ocr: (nat, Roi) -> OcrResult): (texts: seq<string>)
    ensures |texts| == |areas|
    ensures forall i :: 0 <= i < |texts| ==> IsNormalized(texts[i])
  {
    seq(|areas|, i requires 0 <= i < |areas| => ExtractPlateText(frame, areas[i], OcrCall(ocr, i)))
  }

  /** The plates reported for regions `areas` whose extracted texts are `texts`, in order. */
  function Reports(areas: seq<Box>, texts: seq<string>): seq<DetectedPlate>
    requires |texts| == |areas|
    decreases |areas|
  {
    if areas == [] then []
    else
      var n := |areas| - 1;
      Reports(areas[..n], texts[..n]) + (if IsAccepted(texts[n]) then [DetectedPlate(texts[n], areas[n])] else [])
  }

  /** process_frame's list of detected plates. */
  function Recognised(frame: FrameShape, areas: seq<Box>, ocr: (nat, Roi) -> OcrResult): seq<DetectedPlate> {
    Reports(areas, Texts(frame, areas, ocr))
  }

  /** The i-th region yields the report d. */
  predicate IsReportAt(areas: seq<Box>, texts: seq<string>, i: nat, d: DetectedPlate)
    requires i < |areas| && i < |texts|
  {
    IsAccepted(texts[i]) && d == DetectedPlate(texts[i], areas[i])
  }

  /** Reports grows by the last region's report, if any. */
  lemma ReportsStep(areas: seq<Box>, texts: seq<string>)
    requires |texts| == |areas| > 0
    ensures Reports(areas, texts) == Reports(areas[..|areas| - 1], texts[..|areas| - 1]) + LastReport(areas, texts)
  {
  }

  function LastReport(areas: seq<Box>, texts: seq<string>): seq<DetectedPlate>
    requires |texts| == |areas| > 0
  {
    var n := |areas| - 1;
    if IsAccepted(texts[n]) then [DetectedPlate(texts[n], areas[n])] else []
  }

  lemma ReportAtPrefix(areas: seq<Box>, texts: seq<string>, front: seq<Box>, ftexts: seq<string>, i: nat, d: DetectedPlate)
    requires |texts| == |areas| > 0
    requires front == areas[..|areas| - 1] && ftexts == texts[..|areas| - 1]
    requires i < |front|
    ensures IsReportAt(front, ftexts, i, d) <==> IsReportAt(areas, texts, i, d)
  {
    assert front[i] == areas[i] && ftexts[i] == texts[i];
  }

  lemma MemberSound(areas: seq<Box>, texts: seq<string>, front: seq<Box>, ftexts: seq<string>, d: DetectedPlate)
    requires |texts| == |areas| > 0
    requires front == areas[..|areas| - 1] && ftexts == texts[..|areas| - 1]
    requires d in Reports(front, ftexts) ==> exists i :: 0 <= i < |front| && IsReportAt(front, ftexts, i, d)
    requires d in Reports(front, ftexts) + LastReport(areas, texts)
    ensures exists i :: 0 <= i < |areas| && IsReportAt(areas, texts, i, d)
  {
    var n := |areas| - 1;
    if d in Reports(front, ftexts) {
      var i :| 0 <= i < n && IsReportAt(front, ftexts, i, d);
      ReportAtPrefix(areas, texts, front, ftexts, i, d);
    } else {
      assert IsReportAt(areas, texts, n, d);
    }
  }

  lemma MemberComplete(areas: seq<Box>, texts: seq<string>, front: seq<Box>, ftexts: seq<string>, i: nat, d: DetectedPlate)
    requires |texts| == |areas| > 0
    requires front == areas[..|areas| - 1] && ftexts == texts[..|areas| - 1]
    requires (exists j :: 0 <= j < |front| && IsReportAt(front, ftexts, j, d)) ==> d in Reports(front, ftexts)
    requires i < |areas| && IsReportAt(areas, texts, i, d)
    ensures d in Reports(front, ftexts) + LastReport(areas, texts)
  {
    if i < |areas| - 1 {
      ReportAtPrefix(areas, texts, front, ftexts, i, d);
    }
  }

  lemma MemberStep(areas: seq<Box>, texts: seq<string>, front: seq<Box>, ftexts: seq<string>, d: DetectedPlate)
    requires |texts| == |areas| > 0
    requires front == areas[..|areas| - 1] && ftexts == texts[..|areas| - 1]
    requires d in Reports(front, ftexts) <==> exists i :: 0 <= i < |front| && IsReportAt(front, ftexts, i, d)
    ensures d in Reports(areas, texts) <==> exists i :: 0 <= i < |areas| && IsReportAt(areas, texts, i, d)
  {
    ReportsStep(areas, texts);
    if d in Reports(areas, texts) {
      MemberSound(areas, texts, front, ftexts, d);
    }
    if exists i :: 0 <= i < |areas| && IsReportAt(areas, texts, i, d) {
      var i :| 0 <= i < |areas| && IsReportAt(areas, texts, i, d);
      MemberComplete(areas, texts, front, ftexts, i, d);
    }
  }

  /** A plate is reported exactly when some region's extracted text is accepted; never more plates than regions. */
  lemma {:induction false} ReportsMembers(areas: seq<Box>, texts: seq<string>)
    requires |texts| == |areas|
    ensures |Reports(areas, texts)| <= |areas|
    ensures forall d :: d in Reports(areas, texts) <==> exists i :: 0 <= i < |areas| && IsReportAt(areas, texts, i, d)
    decreases |areas|
  {
    if areas != [] {
      var n := |areas| - 1;
      ReportsMembers(areas[..n], texts[..n]);
      forall d
        ensures d in Reports(areas, texts) <==> exists i :: 0 <= i < |areas| && IsReportAt(areas, texts, i, d)
      {
        MemberStep(areas, texts, areas[..n], texts[..n], d);
      }
    }
  }

  /** The positions of the accepted texts, in increasing order: the regions process_frame reports. */
  /** The positions of the true flags, in increasing order. */
  function TrueIndices(flags: seq<bool>): (idx: seq<nat>)
    ensures forall k :: 0 <= k < |idx| ==> idx[k] < |flags| && flags[idx[k]]
    ensures forall k, l :: 0 <= k < l < |idx| ==> idx[k] < idx[l]
    ensures forall i :: 0 <= i < |flags| && flags[i] ==> i in idx
    decreases |flags|
  {
    if flags == [] then []
    else
      var n := |flags| - 1;
      var front := TrueIndices(flags[..n]);
      assert forall i :: 0 <= i < n ==> flags[..n][i] == flags[i];
      front + (if flags[n] then [n] else [])
  }

  /** Which texts process_frame accepts. */
  function AcceptedFlags(texts: seq<string>): (flags: seq<bool>)
    ensures |flags| == |texts|
    ensures forall i :: 0 <= i < |texts| ==> (flags[i] <==> IsAccepted(texts[i]))
  {
    seq(|texts|, i requires 0 <= i < |texts| => IsAccepted(texts[i]))
  }

  /** The positions of the accepted texts, in increasing order: the regions process_frame reports. */
  function AcceptedIndices(texts: seq<string>): (idx: seq<nat>)
    ensures forall k :: 0 <= k < |idx| ==> idx[k] < |texts| && IsAccepted(texts[idx[k]])
    ensures forall k, l :: 0 <= k < l < |idx| ==> idx[k] < idx[l]
    ensures forall i :: 0 <= i < |texts| && IsAccepted(texts[i]) ==> i in idx
  {
    TrueIndices(AcceptedFlags(texts))
  }

  /** Accepting one more text extends the accepted positions by that position, if it is accepted. */
  lemma AcceptedIndicesStep(texts: seq<string>)
    requires texts != []
    ensures AcceptedIndices(texts)
              == AcceptedIndices(texts[..|texts| - 1]) + (if IsAccepted(texts[|texts| - 1]) then [|texts| - 1] else [])
  {
    var n := |texts| - 1;
    assert AcceptedFlags(texts)[..n] == AcceptedFlags(texts[..n]);
  }

  /**
   * The k-th report comes from the k-th accepted region: the reports are exactly the accepted
   * regions, one each, in region order.
   */
  lemma {:induction false} ReportsFollowIndices(areas: seq<Box>, texts: seq<string>)
    requires |texts| == |areas|
    ensures |Reports(areas, texts)| == |AcceptedIndices(texts)|
    ensures forall k :: 0 <= k < |AcceptedIndices(texts)| ==>
              Reports(areas, texts)[k] == DetectedPlate(texts[AcceptedIndices(texts)[k]], areas[AcceptedIndices(texts)[k]])
    decreases |areas|
  {
    if areas != [] {
      var n := |areas| - 1;
      ReportsFollowIndices(areas[..n], texts[..n]);
      var front := AcceptedIndices(texts[..n]);
      var reps := Reports(areas[..n], texts[..n]);
      AcceptedIndicesStep(texts);
      ReportsStep(areas, texts);
      ReportsPrefixAt(areas, texts, front, reps);
      if IsAccepted(texts[n]) {
        IndexedAppend(areas, texts, front, reps, n);
      }
    }
  }

  lemma ReportsPrefixAt(areas: seq<Box>, texts: seq<string>, front: seq<nat>, reps: seq<DetectedPlate>)
    requires |texts| == |areas| > 0 && |reps| == |front|
    requires forall k :: 0 <= k < |front| ==> front[k] < |areas| - 1
    requires forall k :: 0 <= k < |front| ==>
               reps[k] == DetectedPlate(texts[..|areas| - 1][front[k]], areas[..|areas| - 1][front[k]])
    ensures forall k :: 0 <= k < |front| ==> reps[k] == DetectedPlate(texts[front[k]], areas[front[k]])
  {
  }

  lemma IndexedAppend(areas: seq<Box>, texts: seq<string>, front: seq<nat>, reps: seq<DetectedPlate>, n: nat)
    requires |texts| == |areas| && n < |areas| && |reps| == |front|
    requires forall k :: 0 <= k < |front| ==> front[k] < |areas| && reps[k] == DetectedPlate(texts[front[k]], areas[front[k]])
    ensures var idx := front + [n]; var rs := reps + [DetectedPlate(texts[n], areas[n])];
      forall k :: 0 <= k < |idx| ==> rs[k] == DetectedPlate(texts[idx[k]], areas[idx[k]])
  {
  }

  /** Processing one more region extends the reports by that region's report, if any. */
  lemma ReportsExtend(areas: seq<Box>, texts: seq<string>, i: nat)
    requires |texts| == |areas| && i < |areas|
    ensures Reports(areas[..i + 1], texts[..i + 1])
              == Reports(areas[..i], texts[..i]) + (if IsAccepted(texts[i]) then [DetectedPlate(texts[i], areas[i])] else [])
  {
    assert areas[..i + 1][..i] == areas[..i] && texts[..i + 1][..i] == texts[..i];
  }

  /** Every report has an accepted, normalised text and a box among the regions. */
  lemma RecognisedSound(frame: FrameShape, areas: seq<Box>, ocr: (nat, Roi) -> OcrResult)
    ensures |Recognised(frame, areas, ocr)| <= |areas|
    ensures forall d :: d in Recognised(frame, areas, ocr) ==> IsAccepted(d.text) && IsNormalized(d.text) && d.bbox in areas
  {
    var texts := Texts(frame, areas, ocr);
    ReportsMembers(areas, texts);
    forall d | d in Recognised(frame, areas, ocr)
      ensures IsAccepted(d.text) && IsNormalized(d.text) && d.bbox in areas
    {
      var i :| 0 <= i < |areas| && IsReportAt(areas, texts, i, d);
    }
  }

  /** Every reported text is a compact plate: letters, digits, letters, no blanks, at least 4 long. */
  lemma ReportedPlatesAreCompact(frame: FrameShape, areas: seq<Box>, ocr: (nat, Roi) -> OcrResult)
    ensures forall d :: d in Recognised(frame, areas, ocr) ==>
              d.bbox in areas && IsNormalized(d.text) && |d.text| >= 4 && RegexLanguage(d.text, Pattern1)
  {
    var texts := Texts(frame, areas, ocr);
    ReportsMembers(areas, texts);
    forall d | d in Recognised(frame, areas, ocr)
      ensures d.bbox in areas && IsNormalized(d.text) && |d.text| >= 4 && RegexLanguage(d.text, Pattern1)
    {
      var i :| 0 <= i < |areas| && IsReportAt(areas, texts, i, d);
      NormalizedValidation(d.text);
    }
  }

  /** The status handle_plate_detection logs for a plate. */
  function StatusFor(plateText: string): (s: Status)
    ensures s == Authorized <==> plateText in AuthorizedPlates
  {
    if plateText in AuthorizedPlates then Authorized else Unauthorized
  }

  /** What the pipeline can report is never 'R6978SF': of the authorised plates only 'R5477DP' is ever authorised. */
  lemma OnlyR5477DPAuthorized(plateText: string)
    requires IsNormalized(plateText)
    ensures StatusFor(plateText) == Authorized <==> plateText == "R5477DP"
  {
    NormalizedIsNotR6978SF(plateText);
  }

  /** A detection is ignored while fewer than DETECTION_COOLDOWN seconds have passed since the last accepted one. */
  predicate InCooldown(lastDetectionTime: real, currentTime: real) {
    currentTime - lastDetectionTime < DetectionCooldown as real
  }

  /** The gate's state: the time of the last accepted detection and the log file. */
  datatype GateState = GateState(lastDetectionTime: real, log: LogContent)

  /** One handle_plate_detection call: the plate, the clock reading, the timestamp written, and whether the file access fails. */
  datatype Detection = Detection(plateText: string, time: real, timestamp: string, logFault: bool)

  /** The log entry a detection produces. */
  function EntryFor(d: Detection): Entry {
    Entry(d.timestamp, d.plateText, StatusFor(d.plateText))
  }

  /** The state after one handle_plate_detection call. */
  function Handle(g: GateState, d: Detection): GateState {
    if InCooldown(g.lastDetectionTime, d.time) then g
    else GateState(d.time, if d.logFault then g.log else AppendEntry(g.log, EntryFor(d)))
  }

  /** The state after a series of calls, in order. */
  function HandleAll(g: GateState, ds: seq<Detection>): GateState
    decreases |ds|
  {
    if ds == [] then g else HandleAll(Handle(g, ds[0]), ds[1..])
  }

  /** The detections a series of calls accepts, starting from last detection time `last`. */
  function Accepted(last: real, ds: seq<Detection>): seq<Detection>
    decreases |ds|
  {
    if ds == [] then []
    else if InCooldown(last, ds[0].time) then Accepted(last, ds[1..])
    else [ds[0]] + Accepted(ds[0].time, ds[1..])
  }

  /** The entries a series of calls writes: accepted detections whose file access succeeds. */
  function Logged(last: real, ds: seq<Detection>): seq<Entry>
    decreases |ds|
  {
    if ds == [] then []
    else if InCooldown(last, ds[0].time) then Logged(last, ds[1..])
    else (if ds[0].logFault then [] else [EntryFor(ds[0])]) + Logged(ds[0].time, ds[1..])
  }

  lemma {:induction false} AcceptedIsSubsequence(last: real, ds: seq<Detection>)
    ensures |Accepted(last, ds)| <= |ds|
    ensures forall d :: d in Accepted(last, ds) ==> d in ds
    decreases |ds|
  {
    if ds != [] {
      AcceptedIsSubsequence(if InCooldown(last, ds[0].time) then last else ds[0].time, ds[1..]);
    }
  }

  /**
   * Accepted detections are spaced: the first comes at least DETECTION_COOLDOWN after the
   * initial last time, and any two are at least DETECTION_COOLDOWN apart per step between them.
   * No monotonic clock is assumed.
   */
  lemma {:induction false} AcceptedSpacing(last: real, ds: seq<Detection>)
    ensures forall i :: 0 <= i < |Accepted(last, ds)| ==>
              Accepted(last, ds)[i].time >= last + (DetectionCooldown * (i + 1)) as real
    ensures forall i, j :: 0 <= i < j < |Accepted(last, ds)| ==>
              Accepted(last, ds)[j].time - Accepted(last, ds)[i].time >= (DetectionCooldown * (j - i)) as real
    decreases |ds|
  {
    if ds != [] {
      if InCooldown(last, ds[0].time) {
        AcceptedSpacing(last, ds[1..]);
      } else {
        var d0 := ds[0];
        var rest := Accepted(d0.time, ds[1..]);
        AcceptedSpacing(d0.time, ds[1..]);
        var acc := Accepted(last, ds);
        assert acc == [d0] + rest;
        forall i | 0 <= i < |acc|
          ensures acc[i].time >= last + (DetectionCooldown * (i + 1)) as real
        {
          if i > 0 {
            assert acc[i] == rest[i - 1];
          }
        }
        forall i, j | 0 <= i < j < |acc|
          ensures acc[j].time - acc[i].time >= (DetectionCooldown * (j - i)) as real
        {
          assert acc[j] == rest[j - 1];
          if i > 0 {
            assert acc[i] == rest[i - 1];
          }
        }
      }
    }
  }

  /** After a series of calls the last detection time is the last accepted call's time, or unchanged when none was accepted. */
  lemma {:induction false} HandleAllTime(g: GateState, ds: seq<Detection>)
    ensures var acc := Accepted(g.lastDetectionTime, ds);
            HandleAll(g, ds).lastDetectionTime == if acc == [] then g.lastDetectionTime else acc[|acc| - 1].time
    decreases |ds|
  {
    if ds != [] {
      HandleAllTime(Handle(g, ds[0]), ds[1..]);
    }
  }

  /** After a series of calls the log holds what it held (or nothing, if it was invalid) followed by the logged entries. */
  lemma {:induction false} HandleAllLog(g: GateState, ds: seq<Detection>)
    ensures HandleAll(g, ds).log == AppendAll(g.log, Logged(g.lastDetectionTime, ds))
    ensures Recovered(HandleAll(g, ds).log) == Recovered(g.log) + Logged(g.lastDetectionTime, ds)
    decreases |ds|
  {
    if ds != [] {
      var d := ds[0];
      var g' := Handle(g, d);
      assert HandleAll(g, ds) == HandleAll(g', ds[1..]);
      HandleAllLog(g', ds[1..]);
      var rest := Logged(g'.lastDetectionTime, ds[1..]);
      if InCooldown(g.lastDetectionTime, d.time) || d.logFault {
        assert g'.log == g.log;
        assert Logged(g.lastDetectionTime, ds) == rest;
      } else {
        var e := EntryFor(d);
        assert g'.log == AppendEntry(g.log, e);
        assert Logged(g.lastDetectionTime, ds) == [e] + rest;
        assert ([e] + rest)[1..] == rest;
        assert AppendAll(g.log, [e] + rest) == AppendAll(AppendEntry(g.log, e), rest);
      }
    }
    AppendAllReadsBack(g.log, Logged(g.lastDetectionTime, ds));
  }

  /** Without file faults every accepted detection is logged, in order, with its status. */
  lemma {:induction false} LoggedWithoutFaults(last: real, ds: seq<Detection>)
    requires forall i :: 0 <= i < |ds| ==> !ds[i].logFault
    ensures Logged(last, ds) == seq(|Accepted(last, ds)|, i requires 0 <= i < |Accepted(last, ds)| => EntryFor(Accepted(last, ds)[i]))
    decreases |ds|
  {
    if ds != [] {
      var last' := if InCooldown(last, ds[0].time) then last else ds[0].time;
      LoggedWithoutFaults(last', ds[1..]);
      assert !ds[0].logFault;
    }
  }

  /** Every logged entry's status is 'authorized' exactly for the authorised plates. */
  lemma {:induction false} LoggedStatus(last: real, ds: seq<Detection>)
    ensures forall e :: e in Logged(last, ds) ==> (e.status == Authorized <==> e.plateNumber in AuthorizedPlates)
    ensures forall e :: e in Logged(last, ds) ==> exists d :: d in ds && e.plateNumber == d.plateText && e.timestamp == d.timestamp
    decreases |ds|
  {
    if ds != [] {
      var last' := if InCooldown(last, ds[0].time) then last else ds[0].time;
      LoggedStatus(last', ds[1..]);
      forall e | e in Logged(last', ds[1..])
        ensures exists d :: d in ds && e.plateNumber == d.plateText && e.timestamp == d.timestamp
      {
        var d :| d in ds[1..] && e.plateNumber == d.plateText && e.timestamp == d.timestamp;
        assert d in ds;
      }
      assert ds[0] in ds;
    }
  }

  /** Handling a series of calls one at a time is handling the first calls, then the next. */
  lemma {:induction false} HandleAllAppend(g: GateState, ds: seq<Detection>, d: Detection)
    ensures HandleAll(g, ds + [d]) == Handle(HandleAll(g, ds), d)
    decreases |ds|
  {
    if ds == [] {
      assert HandleAll(Handle(g, d), []) == Handle(g, d);
    } else {
      assert (ds + [d])[1..] == ds[1..] + [d];
      HandleAllAppend(Handle(g, ds[0]), ds[1..], d);
    }
  }

  /**
   * The gate starts from last detection time 0, so every detection before 3 seconds on the
   * clock is ignored (the code, not "no prior detection").
   */
  lemma FreshGateIgnoresEarlyDetections(log: LogContent, d: Detection)
    requires d.time < (InitialDetectionTime + DetectionCooldown) as real
    ensures Handle(GateState(InitialDetectionTime as real, log), d) == GateState(InitialDetectionTime as real, log)
  {
  }

  /** A plate at t=100, the same plate at t=101 (ignored) and another plate at t=104 (logged). */
  lemma CooldownScenario(a: string, b: string)
    requires a in AuthorizedPlates && b !in AuthorizedPlates
    ensures var ds := [Detection(a, 100.0, "t100", false), Detection(a, 101.0, "t101", false),
                       Detection(b, 104.0, "t104", false)];
            HandleAll(GateState(InitialDetectionTime as real, Entries([])), ds)
              == GateState(104.0, Entries([Entry("t100", a, Authorized), Entry("t104", b, Unauthorized)]))
  {
    var ds := [Detection(a, 100.0, "t100", false), Detection(a, 101.0, "t101", false),
               Detection(b, 104.0, "t104", false)];
    var g0 := GateState(InitialDetectionTime as real, Entries([]));
    var g1 := GateState(100.0, Entries([Entry("t100", a, Authorized)]));
    var g3 := GateState(104.0, Entries([Entry("t100", a, Authorized), Entry("t104", b, Unauthorized)]));
    assert EntryFor(ds[0]) == Entry("t100", a, Authorized);
    assert EntryFor(ds[2]) == Entry("t104", b, Unauthorized);
    assert [] + [Entry("t100", a, Authorized)] == [Entry("t100", a, Authorized)];
    assert Handle(g0, ds[0]) == g1;
    assert Handle(g1, ds[1]) == g1;
    assert [Entry("t100", a, Authorized)] + [Entry("t104", b, Unauthorized)]
        == [Entry("t100", a, Authorized), Entry("t104", b, Unauthorized)];
    assert Handle(g1, ds[2]) == g3;
    assert HandleAll(g0, ds) == HandleAll(g1, ds[1..]);
    assert HandleAll(g1, ds[1..]) == HandleAll(g1, ds[2..]);
    assert HandleAll(g1, ds[2..]) == HandleAll(g3, ds[3..]);
  }

  /** Clock reading, timestamp and file outcome of one handle_plate_detection call. */
  datatype CallEnv = CallEnv(time: real, timestamp: string, logFault: bool)

  /** The run loop's calls for one frame: one per reported plate, in order. */
  function FrameCalls(plates: seq<DetectedPlate>, env: seq<CallEnv>): seq<Detection>
    requires |env| == |plates|
  {
    seq(|plates|, i requires 0 <= i < |plates| => Detection(plates[i].text, env[i].time, env[i].timestamp, env[i].logFault))
  }

  /**
   * Through the pipeline, plates reported for a frame and then handled are only ever logged
   * as 'authorized' under the text R5477DP: the authorised plate R6978SF cannot be logged at all.
   */
  lemma PipelineNeverLogsR6978SF(frame: FrameShape, contours: seq<Contour>, ocr: (nat, Roi) -> OcrResult,
                                 env: seq<CallEnv>, last: real)
    requires |env| == |Recognised(frame, PlateAreas(contours), ocr)|
    ensures forall e :: e in Logged(last, FrameCalls(Recognised(frame, PlateAreas(contours), ocr), env)) ==>
              e.plateNumber != "R6978SF" && (e.status == Authorized <==> e.plateNumber == "R5477DP")
  {
    var plates := Recognised(frame, PlateAreas(contours), ocr);
    var calls := FrameCalls(plates, env);
    RecognisedSound(frame, PlateAreas(contours), ocr);
    FrameCallsNormalized(plates, env);
    LoggedStatus(last, calls);
    forall e | e in Logged(last, calls)
      ensures e.plateNumber != "R6978SF" && (e.status == Authorized <==> e.plateNumber == "R5477DP")
    {
      var d :| d in calls && e.plateNumber == d.plateText && e.timestamp == d.timestamp;
      NormalizedIsNotR6978SF(e.plateNumber);
    }
  }

  lemma FrameCallsNormalized(plates: seq<DetectedPlate>, env: seq<CallEnv>)
    requires |env| == |plates|
    requires forall p :: p in plates ==> IsNormalized(p.text)
    ensures forall d :: d in FrameCalls(plates, env) ==> IsNormalized(d.plateText)
  {
    var calls := FrameCalls(plates, env);
    forall d | d in calls ensures IsNormalized(d.plateText) {
      var i :| 0 <= i < |calls| && calls[i] == d;
      assert plates[i] in plates;
    }
  }

  class PlateRecognitionSystem {
    const logger: Logger
    var lastDetectionTime: real

    /** The camera and the OCR engine path are set up outside the model. */
    constructor(logger: Logger)
      ensures this.logger == logger
      ensures lastDetectionTime == InitialDetectionTime as real
    {
      this.logger := logger;
      lastDetectionTime := InitialDetectionTime as real;
    }

    /** process_frame: the plates reported for one frame, from its contours and the OCR answers. */
    method ProcessFrame(frame: FrameShape, contours: seq<Contour>, ocr: (nat, Roi) -> OcrResult)
      returns (detectedPlates: seq<DetectedPlate>)
      ensures detectedPlates == Recognised(frame, PlateAreas(contours), ocr)
      ensures |detectedPlates| <= MaxPlateCandidates
      ensures forall d :: d in detectedPlates ==>
                IsAccepted(d.text) && IsNormalized(d.text) && d.bbox in PlateAreas(contours)
    {
      var plateAreas := DetectPlateAreas(contours);
      ghost var texts := Texts(frame, plateAreas, ocr);
      detectedPlates := [];
      for i := 0 to |plateAreas|
        invariant detectedPlates == Reports(plateAreas[..i], texts[..i])
      {
        var area := plateAreas[i];
        var plateText := ExtractPlateText(frame, area, OcrCall(ocr, i));
        assert plateText == texts[i];
        ReportsExtend(plateAreas, texts, i);
        if plateText != "" && ValidatePlateFormat(plateText) {
          detectedPlates := detectedPlates + [DetectedPlate(plateText, area)];
        }
      }
      assert plateAreas[..|plateAreas|] == plateAreas && texts[..|plateAreas|] == texts;
      RecognisedSound(frame, plateAreas, ocr);
    }

    /** handle_plate_detection, with the clock reading, the log timestamp and the file outcome as inputs. */
    method HandlePlateDetection(plateText: string, currentTime: real, timestamp: string, logFault: bool)
      modifies this, logger
      ensures GateState(lastDetectionTime, logger.content)
                == Handle(GateState(old(lastDetectionTime), old(logger.content)),
                          Detection(plateText, currentTime, timestamp, logFault))
    {
      if currentTime - lastDetectionTime < DetectionCooldown as real {
        return;
      }
      var isAuthorized := plateText in AuthorizedPlates;
      if isAuthorized {
        logger.LogDetection(plateText, Authorized, timestamp, logFault);
      } else {
        logger.LogDetection(plateText, Unauthorized, timestamp, logFault);
      }
      lastDetectionTime := currentTime;
    }

    /** The body of run's frame loop: each reported plate is handled in turn. */
    method HandleDetectedPlates(detectedPlates: seq<DetectedPlate>, env: seq<CallEnv>)
      requires |env| == |detectedPlates|
      modifies this, logger
      ensures GateState(lastDetectionTime, logger.content)
                == HandleAll(GateState(old(lastDetectionTime), old(logger.content)), FrameCalls(detectedPlates, env))
    {
      var calls := FrameCalls(detectedPlates, env);
      for i := 0 to |detectedPlates|
        invariant GateState(lastDetectionTime, logger.content)
                    == HandleAll(GateState(old(lastDetectionTime), old(logger.content)), calls[..i])
      {
        HandleAllAppend(GateState(old(lastDetectionTime), old(logger.content)), calls[..i], calls[i]);
        assert calls[..i + 1] == calls[..i] + [calls[i]];
        HandlePlateDetection(detectedPlates[i].text, env[i].time, env[i].timestamp, env[i].logFault);
      }
      assert calls[..|detectedPlates|] == calls;
    }
  }
}
