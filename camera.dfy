/** Per-camera bookkeeping of `OptimizedCamera` and the camera registry
    (`camera_configs`, `active_cameras`) of the real-time camera system.
    The capture and initialisation threads are gone: what OpenCV, DeepFace,
    the activity monitor and the clock deliver for a frame is handed in as
    a `Scene`, and what the capture loop reads from the device as a
    sequence of `Tick`s. */
module Camera {
  import opened Common
  import DeepFace
  import Attendance

  /** `deque(maxlen=300)`. */
  const BufferCapacity: nat := 300
  /** The attendance clip: the last five seconds at 30 frames per second. */
  const AttendanceClipLength: nat := 150
  /** The unauthorised-person clip: the last ten seconds. */
  const SecurityClipLength: nat := 300
  /** Copies of the current frame when the buffer is empty. */
  const FallbackCopies: nat := 30
  const DoorCadence: nat := 10
  const ActivityCadence: nat := 45
  /** Consecutive failures tolerated before the capture loop stops. */
  const MaxReadFailures: nat := 30
  const MaxCaptureErrors: nat := 10
  /** `alert_throttle_seconds = 60`, in microseconds. */
  const AlertThrottleUs: nat := 60_000_000
  /** First-frame attempts for an RTSP source; other sources get one. */
  const RtspAttempts: nat := 5

  // ---------------------------------------------------------------------
  // The frame buffer and the clips cut from it
  // ---------------------------------------------------------------------

  /** Python's `xs[-k:]` for `k >= 1`: the last `k` items, or all of them
      when there are fewer. */
  function Last<T>(xs: seq<T>, k: nat): (r: seq<T>)
    ensures |r| == Min(k, |xs|)
    ensures xs == xs[..|xs| - |r|] + r
  {
    xs[|xs| - Min(k, |xs|)..]
  }

  /** Appending to a bounded deque and then keeping the last `k` frames is
      the same as keeping the last `k` frames of the whole history: the
      buffer always holds the most recent frames. */
  lemma LastAppend<T>(history: seq<T>, x: T, k: nat)
    requires k >= 1
    ensures Last(Last(history, k) + [x], k) == Last(history + [x], k)
  {
    var b := Last(history, k);
    if |history| < k {
      assert b == history;
    } else {
      assert |b| == k;
      assert Last(b + [x], k) == b[1..] + [x];
      assert history + [x] == history[..|history| - k] + b + [x];
      assert Last(history + [x], k) == (history + [x])[|history| + 1 - k..];
    }
  }

  /** The frames of `_save_unauthorized_person_clip`: the last 300
      buffered frames, or 30 copies of the current frame when the buffer
      is empty. */
  function SecurityFrames(buffer: seq<Frame>, frame: Frame): (r: seq<Frame>)
    ensures 1 <= |r| <= SecurityClipLength
    ensures buffer != [] ==> |r| == Min(SecurityClipLength, |buffer|) && buffer == buffer[..|buffer| - |r|] + r
    ensures buffer == [] ==> |r| == FallbackCopies && forall i :: 0 <= i < |r| ==> r[i] == frame
  {
    if |buffer| == 0 then seq(FallbackCopies, _ => frame) else Last(buffer, SecurityClipLength)
  }

  /** A clip handed to the video store: its event type and its frames. */
  datatype Clip = Clip(eventType: string, frames: seq<Frame>)

  /** The keyword parameters `save_security_clip` accepts. */
  const SaveClipParameters: set<string> := {"frames", "camera_id", "event_type", "metadata"}

  /** The keywords the attendance and intruder saves pass. */
  const DoorClipKeywords: seq<string> := ["frames", "camera_id", "event_type", "metadata"]

  /** The keywords the activity save passes: one more, `thumbnail`. */
  const ActivityClipKeywords: seq<string> := ["frames", "camera_id", "event_type", "metadata", "thumbnail"]

  /** A call of `save_security_clip` with the given keywords: the clip is
      handed to the video store when every keyword is a parameter; an
      unknown keyword raises before anything is saved. */
  function SaveClipCall(keywords: seq<string>, clip: Clip): (handed: seq<Clip>)
    ensures handed == [] <==> exists k :: 0 <= k < |keywords| && keywords[k] !in SaveClipParameters
    ensures handed != [] ==> handed == [clip]
  {
    if forall k :: 0 <= k < |keywords| ==> keywords[k] in SaveClipParameters then [clip] else []
  }

  /** The attendance and intruder saves reach the video store; the activity
      save never does. */
  lemma ClipCallOutcomes(clip: Clip)
    ensures SaveClipCall(DoorClipKeywords, clip) == [clip]
    ensures SaveClipCall(ActivityClipKeywords, clip) == []
  {
    assert ActivityClipKeywords[4] !in SaveClipParameters;
  }

  // ---------------------------------------------------------------------
  // Analysis cadence
  // ---------------------------------------------------------------------

  datatype Analysis = Idle | DoorCheck | ActivityCheck

  /** Which analysis `_process_frame` runs on the frame numbered `count`
      (the counter before its increment). */
  function Scheduled(cameraType: string, count: nat): Analysis
  {
    if cameraType == "door" && count % DoorCadence == 0 then DoorCheck
    else if cameraType == "activity" && count % ActivityCadence == 0 then ActivityCheck
    else Idle
  }

  /** How many of the frames numbered `0 .. n - 1` are analysed. */
  function AnalysedAmong(cameraType: string, n: nat): nat
  {
    if n == 0 then 0
    else AnalysedAmong(cameraType, n - 1) + (if Scheduled(cameraType, n - 1) == Idle then 0 else 1)
  }

  /** A door camera analyses one frame in ten, starting with the first. */
  lemma {:induction false} DoorCadenceCount(n: nat)
    ensures AnalysedAmong("door", n) == (n + DoorCadence - 1) / DoorCadence
  {
    if n > 0 {
      DoorCadenceCount(n - 1);
    }
  }

  /** An activity camera analyses one frame in forty-five, starting with
      the first. */
  lemma {:induction false} ActivityCadenceCount(n: nat)
    ensures AnalysedAmong("activity", n) == (n + ActivityCadence - 1) / ActivityCadence
  {
    if n > 0 {
      ActivityCadenceCount(n - 1);
    }
  }

  /** Any other camera type is never analysed. */
  lemma {:induction false} OtherTypesIdle(cameraType: string, n: nat)
    requires cameraType != "door" && cameraType != "activity"
    ensures AnalysedAmong(cameraType, n) == 0
  {
    if n > 0 {
      OtherTypesIdle(cameraType, n - 1);
    }
  }

  // ---------------------------------------------------------------------
  // Consecutive failures of the capture loop
  // ---------------------------------------------------------------------

  /** What the capture loop gets from the device on one turn, and, for a
      frame, what the analyses would observe in it. */
  datatype Tick = Grabbed(frame: Frame, scene: Scene) | Missed | Raised

  /** The failure counter after one tick, or `None` when the loop stops:
      a frame resets it, a missing frame or an exception increments it,
      and the loop gives up past 30 for a missing frame and past 10 for an
      exception. Both kinds share the one counter. */
  function NextFailures(failures: nat, t: Tick): Option<nat>
  {
    match t
    case Grabbed(_, _) => Some(0)
    case Missed => if failures + 1 > MaxReadFailures then None else Some(failures + 1)
    case Raised => if failures + 1 > MaxCaptureErrors then None else Some(failures + 1)
  }

  /** The counter after the ticks `ts`, from 0; `None` once the loop has
      stopped. */
  function FailuresAfter(ts: seq<Tick>): Option<nat>
  {
    if |ts| == 0 then Some(0)
    else match FailuresAfter(ts[..|ts| - 1])
      case None => None
      case Some(f) => NextFailures(f, ts[|ts| - 1])
  }

  /** The number of failed ticks at the end of `ts`. */
  function TrailingFailures(ts: seq<Tick>): nat
  {
    if |ts| == 0 || ts[|ts| - 1].Grabbed? then 0 else TrailingFailures(ts[..|ts| - 1]) + 1
  }

  /** The counter is the length of the trailing run of failures, whatever
      their kind; it never exceeds 30, and never exceeds 10 right after an
      exception. */
  lemma {:induction false} FailuresAreTrailing(ts: seq<Tick>)
    requires FailuresAfter(ts).Some?
    ensures FailuresAfter(ts).value == TrailingFailures(ts)
    ensures TrailingFailures(ts) <= MaxReadFailures
    ensures |ts| > 0 && ts[|ts| - 1].Raised? ==> TrailingFailures(ts) <= MaxCaptureErrors
  {
    if |ts| > 0 {
      FailuresAreTrailing(ts[..|ts| - 1]);
    }
  }

  lemma {:induction false} TrailingRun(ts: seq<Tick>, run: seq<Tick>)
    requires forall i :: 0 <= i < |run| ==> !run[i].Grabbed?
    ensures TrailingFailures(ts + run) == TrailingFailures(ts) + |run|
    decreases |run|
  {
    if |run| > 0 {
      assert (ts + run)[|ts + run| - 1] == run[|run| - 1];
      assert (ts + run)[..|ts + run| - 1] == ts + run[..|run| - 1];
      TrailingRun(ts, run[..|run| - 1]);
    } else {
      assert ts + run == ts;
    }
  }

  /** Once running, the loop stops within any run of more than 30 failed
      ticks, and within any run of more than 10 that ends in an
      exception. */
  lemma FailureRunsStop(ts: seq<Tick>, run: seq<Tick>)
    requires forall i :: 0 <= i < |run| ==> !run[i].Grabbed?
    requires |run| > MaxReadFailures || (|run| > MaxCaptureErrors && run[|run| - 1].Raised?)
    ensures FailuresAfter(ts + run).None?
  {
    TrailingRun(ts, run);
    assert (ts + run)[|ts + run| - 1] == run[|run| - 1];
    if FailuresAfter(ts + run).Some? {
      FailuresAreTrailing(ts + run);
    }
  }

  /** A stop happens exactly on a failed tick that takes the trailing run
      past the limit of its kind. */
  lemma StopCondition(ts: seq<Tick>, t: Tick)
    requires FailuresAfter(ts).Some?
    ensures FailuresAfter(ts + [t]).None? <==>
      (t.Missed? && TrailingFailures(ts) + 1 > MaxReadFailures) ||
      (t.Raised? && TrailingFailures(ts) + 1 > MaxCaptureErrors)
  {
    FailuresAreTrailing(ts);
    assert (ts + [t])[..|ts|] == ts;
  }

  /** How many ticks the loop takes: all of them, or up to and including
      the one that stops it. */
  function StopPoint(ts: seq<Tick>): (n: nat)
    ensures n <= |ts|
  {
    if |ts| == 0 then 0
    else if FailuresAfter(ts[..|ts| - 1]).Some? then |ts|
    else StopPoint(ts[..|ts| - 1])
  }

  lemma {:induction false} StopPointKept(ts: seq<Tick>, c: nat)
    requires c <= |ts|
    requires FailuresAfter(ts[..c]).None? && StopPoint(ts[..c]) == c
    ensures FailuresAfter(ts).None? && StopPoint(ts) == c
    decreases |ts|
  {
    if |ts| > c {
      assert ts[..|ts| - 1][..c] == ts[..c];
      StopPointKept(ts[..|ts| - 1], c);
    } else {
      assert ts[..c] == ts;
    }
  }

  /** The frames among the ticks, in order. */
  function Grabs(ts: seq<Tick>): (fs: seq<Frame>)
    ensures |fs| <= |ts|
  {
    if |ts| == 0 then []
    else Grabs(ts[..|ts| - 1]) + (if ts[|ts| - 1].Grabbed? then [ts[|ts| - 1].frame] else [])
  }

  lemma GrabsAppend(ts: seq<Tick>, t: Tick)
    ensures Grabs(ts + [t]) == Grabs(ts) + Grabs([t])
  {
    assert (ts + [t])[..|ts|] == ts;
    assert [t][..0] == [];
  }

  // ---------------------------------------------------------------------
  // Recognition with a ladder of thresholds
  // ---------------------------------------------------------------------

  /** The thresholds tried in order, from strictest to most lenient. */
  const Thresholds: seq<real> := [0.6, 0.7, 0.8]

  datatype Match = Match(employeeId: string, name: string, confidence: real)

  /** The reply to the first threshold of `ts` at which the face is
      recognised. */
  function FirstRecognized(ts: seq<real>, reply: real -> DeepFace.Recognition): (m: Option<Match>)
    ensures m.Some? <==> exists i :: 0 <= i < |ts| && reply(ts[i]).Recognized?
  {
    if |ts| == 0 then None
    else
      var r := reply(ts[0]);
      if r.Recognized? then Some(Match(r.employeeId, r.name, r.confidence))
      else
        var m := FirstRecognized(ts[1..], reply);
        assert forall i :: 1 <= i < |ts| ==> ts[i] == ts[1..][i - 1];
        m
  }

  /** The match comes from the first threshold that recognises, and every
      stricter one failed. */
  lemma {:induction false} FirstRecognizedMeaning(ts: seq<real>, reply: real -> DeepFace.Recognition)
    requires FirstRecognized(ts, reply).Some?
    ensures exists i :: (0 <= i < |ts| && reply(ts[i]).Recognized? &&
      (forall j :: 0 <= j < i ==> !reply(ts[j]).Recognized?) &&
      FirstRecognized(ts, reply).value ==
        Match(reply(ts[i]).employeeId, reply(ts[i]).name, reply(ts[i]).confidence))
  {
    if !reply(ts[0]).Recognized? {
      FirstRecognizedMeaning(ts[1..], reply);
      var i :| 0 <= i < |ts[1..]| && reply(ts[1..][i]).Recognized? &&
        (forall j :: 0 <= j < i ==> !reply(ts[1..][j]).Recognized?) &&
        FirstRecognized(ts[1..], reply).value ==
          Match(reply(ts[1..][i]).employeeId, reply(ts[1..][i]).name, reply(ts[1..][i]).confidence);
      assert forall j :: 1 <= j < i + 1 ==> ts[j] == ts[1..][j - 1];
      assert ts[i + 1] == ts[1..][i];
    } else {
      assert reply(ts[0]).Recognized?;
    }
  }

  /** Against the face store the ladder adds nothing: the nearest stored
      face is the same at every threshold, so the face is recognised at
      some threshold exactly when it is recognised at the most lenient one,
      and as the same employee. */
  lemma LadderMatchesLenientQuery(store: seq<DeepFace.EmployeeEmbeddings>, input: DeepFace.Embedding,
                                  dist: (DeepFace.Embedding, DeepFace.Embedding) -> real,
                                  names: map<string, Option<string>>)
    ensures var reply := (t: real) => DeepFace.Recognize(store, DeepFace.Embedded(input), dist, names, t);
      var lenient := reply(Thresholds[2]);
      && (FirstRecognized(Thresholds, reply).Some? <==> lenient.Recognized?)
      && (lenient.Recognized? ==>
            FirstRecognized(Thresholds, reply).value.employeeId == lenient.employeeId &&
            FirstRecognized(Thresholds, reply).value.name == lenient.name)
  {
    var reply := (t: real) => DeepFace.Recognize(store, DeepFace.Embedded(input), dist, names, t);
    var cs := DeepFace.Candidates(store);
    forall t | t in Thresholds && reply(t).Recognized?
      ensures reply(Thresholds[2]).Recognized?
      ensures reply(t).employeeId == reply(Thresholds[2]).employeeId && reply(t).name == reply(Thresholds[2]).name
    {
      var b := DeepFace.BestIndex(cs, input, dist);
      assert b.Some?;
    }
    if FirstRecognized(Thresholds, reply).Some? {
      FirstRecognizedMeaning(Thresholds, reply);
    }
  }

  // ---------------------------------------------------------------------
  // Alerts
  // ---------------------------------------------------------------------

  /** The alert a camera keeps for the next poll. */
  datatype Alert =
    | BehaviourAlert(kind: string, message: string, confidenceText: string, cameraId: string)
    | AttendanceAlert(employeeId: string, name: string, confidence: real, cameraId: string)
    | IntruderAlert(facesDetected: nat, cameraId: string)

  /** The closing part of every human-readable alert; the confidence comes
      already formatted with two decimals. */
  function ConfidenceSuffix(confidence: string): string
  {
    " (confidence: " + confidence + ")"
  }

  /** The separator between a behaviour and its reading. The source file
      holds the UTF-8 bytes of an em dash decoded once too often, so the
      literal is the three characters U+00E2 U+20AC U+201D. */
  const Dash: string := " \U{00E2}\U{20AC}\U{201D} "

  /** The text of the known behaviours, `None` for any other. */
  function BehaviourText(kind: string): Option<string>
  {
    if kind == "timepass_phone" then Some("Employee making timepass" + Dash + "using phone at desk")
    else if kind == "loitering" then Some("Loitering near restricted area" + Dash + "possible non-working behavior")
    else if kind == "idle" then Some("Employee sitting idle" + Dash + "no productive activity detected")
    else if kind == "chatting" then Some("Extended chatting detected" + Dash + "possible time wastage")
    else if kind == "suspicious" then Some("Suspicious behavior detected" + Dash + "requires attention")
    else None
  }

  /** `_humanize_alert`: the text of a known behaviour, or the generic
      text naming the unknown one, followed by the formatted confidence. */
  function HumanizeAlert(kind: string, confidence: string): (message: string)
    ensures |ConfidenceSuffix(confidence)| <= |message|
    ensures message[|message| - |ConfidenceSuffix(confidence)|..] == ConfidenceSuffix(confidence)
    ensures BehaviourText(kind).Some? ==>
      |BehaviourText(kind).value| <= |message| && message[..|BehaviourText(kind).value|] == BehaviourText(kind).value
    ensures BehaviourText(kind).None? ==>
      |Unusual| + |kind| <= |message| && message[..|Unusual|] == Unusual &&
      message[|Unusual|..|Unusual| + |kind|] == kind
  {
    AlertText(kind) + ConfidenceSuffix(confidence)
  }

  /** The text of a behaviour before its confidence. */
  function AlertText(kind: string): string
  {
    match BehaviourText(kind)
    case Some(t) => t
    case None => Unusual + kind
  }

  /** The opening of the message for a behaviour without a text. */
  const Unusual: string := "Unusual behavior detected: "


  /** The known texts are pairwise distinct: no two have the same length. */
  lemma KnownTextsDistinct(kind: string, kind': string)
    requires BehaviourText(kind).Some? && BehaviourText(kind') == BehaviourText(kind)
    ensures kind == kind'
  {
    KnownTextsStart(kind);
    KnownTextsStart(kind');
  }

  /** No known text starts like the text for an unknown behaviour. */
  lemma KnownTextsStart(kind: string)
    requires BehaviourText(kind).Some?
    ensures |BehaviourText(kind).value| > 0 && BehaviourText(kind).value[0] != 'U'
    ensures |BehaviourText(kind).value| ==
      if kind == "timepass_phone" then 48 else if kind == "loitering" then 64
      else if kind == "idle" then 57 else if kind == "chatting" then 52 else 51
  {
    var t := BehaviourText(kind).value;
    if kind == "timepass_phone" {
      assert t == "Employee making timepass" + Dash + "using phone at desk";
      assert t[0] == 'E';
    } else if kind == "loitering" {
      assert t == "Loitering near restricted area" + Dash + "possible non-working behavior";
      assert t[0] == 'L';
    } else if kind == "idle" {
      assert t == "Employee sitting idle" + Dash + "no productive activity detected";
      assert t[0] == 'E';
    } else if kind == "chatting" {
      assert t == "Extended chatting detected" + Dash + "possible time wastage";
      assert t[0] == 'E';
    } else {
      assert t == "Suspicious behavior detected" + Dash + "requires attention";
      assert t[0] == 'S';
    }
  }

  /** Distinct alert types never share a message, so the message names the
      behaviour. */
  lemma HumanizeInjective(kind: string, kind': string, confidence: string)
    requires HumanizeAlert(kind, confidence) == HumanizeAlert(kind', confidence)
    ensures kind == kind'
  {
    var message := HumanizeAlert(kind, confidence);
    var suffix := ConfidenceSuffix(confidence);
    assert message == AlertText(kind) + suffix;
    assert message == AlertText(kind') + suffix;
    var text := message[..|message| - |suffix|];
    assert text == AlertText(kind) == AlertText(kind');
    if BehaviourText(kind).None? && BehaviourText(kind').None? {
      assert kind == text[|Unusual|..] == kind';
    } else if BehaviourText(kind).None? {
      KnownTextsStart(kind');
    } else if BehaviourText(kind').None? {
      KnownTextsStart(kind);
    } else {
      KnownTextsDistinct(kind, kind');
    }
  }

  /** Whether an alert of `kind` may be raised at `nowUs`: never raised
      before, or last raised at least 60 seconds ago. */
  predicate AlertDue(last: map<string, int>, kind: string, nowUs: int)
  {
    kind !in last || nowUs - last[kind] >= AlertThrottleUs
  }

  /** Raising an alert of one type silences that type for 60 seconds and
      leaves every other type as it was. */
  lemma ThrottleAfterAlert(last: map<string, int>, kind: string, nowUs: int, other: string, laterUs: int)
    ensures AlertDue(last[kind := nowUs], kind, laterUs) <==> laterUs >= nowUs + AlertThrottleUs
    ensures other != kind ==> (AlertDue(last[kind := nowUs], other, laterUs) <==> AlertDue(last, other, laterUs))
  {
  }

  /** What the analyses observe in one frame. */
  datatype Scene = Scene(
    /** Whether the frame encodes to JPEG for recognition. */
    encoded: bool,
    /** `recognize_face`'s reply at each threshold; an exception stands as
        a `RecognitionError`. */
    reply: real -> DeepFace.Recognition,
    /** The number of faces `extract_faces` reports. */
    facesDetected: nat,
    /** The activity monitor's verdict: a behaviour and its confidence,
        formatted with two decimals; `None` for no behaviour. */
    verdict: Option<(string, string)>,
    now: Attendance.Moment)

  /** The match of `_adaptive_face_recognition`. */
  function Recognised(scene: Scene): Option<Match>
  {
    if scene.encoded then FirstRecognized(Thresholds, scene.reply) else None
  }

  /** The face handed to the attendance service for a match. */
  function FaceOf(m: Match): Attendance.Face
  {
    Attendance.Face(Some(m.employeeId), Some(m.name))
  }

  /** The alert after the attendance results: one per recorded event, the
      last one kept. */
  function AttendanceAlerts(alert: Option<Alert>, marked: seq<Attendance.Marked>, confidence: real, cameraId: string)
    : Option<Alert>
  {
    if |marked| == 0 then alert
    else Some(AttendanceAlert(marked[|marked| - 1].employeeId, marked[|marked| - 1].name, confidence, cameraId))
  }

  /** The effect of `_process_door_camera` on a frame: a recognised face is
      handed to the attendance service, and every recorded event becomes
      an alert and an attendance clip; an unrecognised frame with faces in
      it raises the intruder alert and a security clip. */
  predicate DoorEffects(cameraId: string, buffer: seq<Frame>, frame: Frame, scene: Scene,
                        employees: map<string, Attendance.Employee>,
                        recent: map<string, int>, records: map<(string, string), Attendance.Record>, alert: Option<Alert>,
                        recent': map<string, int>, records': map<(string, string), Attendance.Record>, alert': Option<Alert>,
                        marked: seq<Attendance.Marked>, clips: seq<Clip>)
  {
    match Recognised(scene)
    case Some(m) =>
      && Attendance.Pairs(marked) == Attendance.Outcome(employees, recent, [FaceOf(m)], scene.now).0
      && recent' == Attendance.Outcome(employees, recent, [FaceOf(m)], scene.now).1
      && Attendance.LastKinds(records', marked, scene.now.date)
      && records' == Attendance.RecordsAfter(records, cameraId, scene.now, marked)
      && alert' == AttendanceAlerts(alert, marked, m.confidence, cameraId)
      && clips == seq(|marked|, _ => Clip("door_registered", Last(buffer, AttendanceClipLength)))
    case None =>
      && marked == [] && recent' == recent && records' == records
      && (scene.facesDetected == 0 ==> alert' == alert && clips == [])
      && (scene.facesDetected > 0 ==>
            alert' == Some(IntruderAlert(scene.facesDetected, cameraId)) &&
            clips == [Clip("unauthorized_person", SecurityFrames(buffer, frame))])
  }

  /** A door frame writes at most one day record, that of the recognised
      employee, and leaves every other record as it was. */
  lemma DoorRecords(cameraId: string, buffer: seq<Frame>, frame: Frame, scene: Scene,
                    employees: map<string, Attendance.Employee>,
                    recent: map<string, int>, records: map<(string, string), Attendance.Record>, alert: Option<Alert>,
                    recent': map<string, int>, records': map<(string, string), Attendance.Record>, alert': Option<Alert>,
                    marked: seq<Attendance.Marked>, clips: seq<Clip>)
    requires DoorEffects(cameraId, buffer, frame, scene, employees, recent, records, alert,
                         recent', records', alert', marked, clips)
    ensures |marked| <= 1
    ensures marked == [] ==> records' == records
    ensures marked != [] ==>
      && Recognised(scene).Some? && marked[0].employeeId == Recognised(scene).value.employeeId
      && records' == records[(marked[0].employeeId, scene.now.date) :=
                             Attendance.DayRecord(records, marked[0].employeeId, cameraId, scene.now)]
  {
    if Recognised(scene).Some? {
      var m := Recognised(scene).value;
      Attendance.OutcomeProperties(employees, recent, [FaceOf(m)], scene.now);
      var ms := Attendance.Outcome(employees, recent, [FaceOf(m)], scene.now).0;
      assert |marked| == |Attendance.Pairs(marked)|;
      if marked != [] {
        assert marked[..0] == [];
        assert Attendance.Pairs(marked)[0].0 == marked[0].employeeId;
        var i :| 0 <= i < 1 && Attendance.Identified([FaceOf(m)][i]) && [FaceOf(m)][i].employeeId.value == ms[0].0;
        assert |marked| == 1;
        assert Attendance.RecordsAfter(records, cameraId, scene.now, marked[..0]) == records;
        assert records' == Attendance.RecordOne(records, marked[0].employeeId, cameraId, scene.now);
      }
    }
  }

  /** Whether the verdict is one that may alert: a behaviour other than
      `working_ok`. */
  predicate Alerting(verdict: Option<(string, string)>)
  {
    verdict.Some? && verdict.value.0 != "" && verdict.value.0 != "working_ok"
  }

  /** The effect of `_process_activity_camera`: an alerting behaviour that
      is not throttled records its alert time and replaces the alert. No
      clip is ever saved: the save passes a `thumbnail` argument that
      `save_security_clip` does not take, and the resulting error is caught
      and logged. */
  predicate ActivityEffects(cameraId: string, scene: Scene,
                            last: map<string, int>, alert: Option<Alert>,
                            last': map<string, int>, alert': Option<Alert>, clips: seq<Clip>)
  {
    && clips == []
    && if Alerting(scene.verdict) && AlertDue(last, scene.verdict.value.0, scene.now.epochUs) then
         var (kind, confidence) := scene.verdict.value;
         && last' == last[kind := scene.now.epochUs]
         && alert' == Some(BehaviourAlert(kind, HumanizeAlert(kind, confidence), confidence, cameraId))
       else
         last' == last && alert' == alert
  }

  /** How a camera's device opening goes: whether the capture opens, which
      first-frame reads succeed, and whether the opening outlasts its
      timeout. */
  datatype Opening = Opening(connected: bool, readOk: nat -> bool, timedOut: bool)

  /** RTSP sources get five first-frame attempts, others one. */
  function Attempts(source: string): (n: nat)
    ensures 1 <= n <= RtspAttempts
  {
    if StartsWith(source, "rtsp") then RtspAttempts else 1
  }

  /** Whether `start` succeeds on a stopped camera. */
  predicate Opens(source: string, o: Opening)
  {
    !o.timedOut && o.connected && exists k :: 0 <= k < Attempts(source) && o.readOk(k)
  }

  // ---------------------------------------------------------------------
  // One camera
  // ---------------------------------------------------------------------

  class OptimizedCamera {
    const cameraId: string
    const source: string
    const cameraType: string
    var running: bool
    var currentFrame: Option<Frame>
    var frameCount: nat
    var activityBuffer: seq<Frame>
    /** Every frame processed so far. */
    ghost var history: seq<Frame>
    var latestAlert: Option<Alert>
    /** When each alert type was last raised, in microseconds. */
    var lastAlertTime: map<string, int>

    /** The counter counts the processed frames and the buffer holds the
        most recent 300 of them. */
    ghost predicate Valid()
      reads this
    {
      |history| == frameCount && activityBuffer == Last(history, BufferCapacity)
    }

    constructor (cameraId: string, source: string, cameraType: string)
      ensures Valid()
      ensures this.cameraId == cameraId && this.source == source && this.cameraType == cameraType
      ensures !running && currentFrame == None && frameCount == 0 && activityBuffer == []
      ensures latestAlert == None && lastAlertTime == map[]
    {
      this.cameraId := cameraId;
      this.source := source;
      this.cameraType := cameraType;
      running := false;
      currentFrame := None;
      frameCount := 0;
      activityBuffer := [];
      history := [];
      latestAlert := None;
      lastAlertTime := map[];
    }

    /** `start`: a running camera answers yes and nothing changes;
        otherwise the camera runs exactly when the device opens and a first
        frame arrives within the attempts its source allows. */
    method Start(o: Opening) returns (started: bool)
      modifies this`running
      ensures old(running) ==> started && running
      ensures !old(running) ==> started == Opens(source, o) && running == started
    {
      if running {
        return true;
      }
      if o.timedOut || !o.connected {
        return false;
      }
      var got := false;
      for attempt := 0 to Attempts(source)
        invariant !got
        invariant forall k :: 0 <= k < attempt ==> !o.readOk(k)
      {
        if o.readOk(attempt) {
          got := true;
          break;
        }
      }
      if got {
        running := true;
      }
      started := got;
    }

    /** `stop`. */
    method Stop()
      modifies this`running
      ensures !running
    {
      running := false;
    }

    /** `get_latest_alert`: hands over the stored alert and clears it, so an
        immediate second poll gets nothing. */
    method GetLatestAlert() returns (alert: Option<Alert>)
      modifies this`latestAlert
      ensures alert == old(latestAlert) && latestAlert == None
    {
      alert := latestAlert;
      latestAlert := None;
    }

    /** `_should_create_alert`: the answer is whether the type is due, and
        the time is recorded only when it is. */
    method ShouldCreateAlert(kind: string, nowUs: int) returns (create: bool)
      modifies this`lastAlertTime
      ensures create == AlertDue(old(lastAlertTime), kind, nowUs)
      ensures lastAlertTime == if create then old(lastAlertTime)[kind := nowUs] else old(lastAlertTime)
    {
      if kind !in lastAlertTime || nowUs - lastAlertTime[kind] >= AlertThrottleUs {
        lastAlertTime := lastAlertTime[kind := nowUs];
        return true;
      }
      return false;
    }

    /** `_adaptive_face_recognition`: nothing for a frame that does not
        encode, otherwise the reply at the first recognising threshold. */
    method AdaptiveFaceRecognition(encoded: bool, reply: real -> DeepFace.Recognition) returns (m: Option<Match>)
      ensures !encoded ==> m == None
      ensures encoded ==> m == FirstRecognized(Thresholds, reply)
    {
      if !encoded {
        return None;
      }
      var i := 0;
      while i < |Thresholds|
        invariant i <= |Thresholds|
        invariant FirstRecognized(Thresholds, reply) == FirstRecognized(Thresholds[i..], reply)
      {
        var r := reply(Thresholds[i]);
        if r.Recognized? {
          return Some(Match(r.employeeId, r.name, r.confidence));
        }
        assert Thresholds[i..][1..] == Thresholds[i + 1..];
        i := i + 1;
      }
      return None;
    }

    /** `_process_door_camera` with `_handle_recognized_person` and
        `_handle_unknown_person`. */
    method ProcessDoorCamera(frame: Frame, scene: Scene, service: Attendance.AttendanceService,
                             employees: map<string, Attendance.Employee>)
      returns (marked: seq<Attendance.Marked>, clips: seq<Clip>)
      requires service.Valid()
      modifies this`latestAlert, service
      ensures service.Valid()
      ensures DoorEffects(cameraId, activityBuffer, frame, scene, employees,
                          old(service.recentDetections), old(service.records), old(latestAlert),
                          service.recentDetections, service.records, latestAlert, marked, clips)
    {
      var recognized := AdaptiveFaceRecognition(scene.encoded, scene.reply);
      if recognized.Some? {
        var m := recognized.value;
        marked := service.ProcessDoorCameraFrame(employees, cameraId, [FaceOf(m)], scene.now);
        var frames := Last(activityBuffer, AttendanceClipLength);
        clips := [];
        for i := 0 to |marked|
          invariant latestAlert == AttendanceAlerts(old(latestAlert), marked[..i], m.confidence, cameraId)
          invariant clips == seq(i, _ => Clip("door_registered", frames))
          modifies this`latestAlert
        {
          latestAlert := Some(AttendanceAlert(marked[i].employeeId, marked[i].name, m.confidence, cameraId));
          clips := clips + [Clip("door_registered", frames)];
        }
        assert marked[..|marked|] == marked;
      } else {
        marked := [];
        clips := [];
        if scene.facesDetected > 0 {
          latestAlert := Some(IntruderAlert(scene.facesDetected, cameraId));
          clips := [Clip("unauthorized_person", SecurityFrames(activityBuffer, frame))];
        }
      }
    }

    /** `_process_activity_camera`. */
    method ProcessActivityCamera(scene: Scene) returns (clips: seq<Clip>)
      modifies this`latestAlert, this`lastAlertTime
      ensures ActivityEffects(cameraId, scene, old(lastAlertTime), old(latestAlert),
                              lastAlertTime, latestAlert, clips)
    {
      clips := [];
      if Alerting(scene.verdict) {
        var (kind, confidence) := scene.verdict.value;
        var create := ShouldCreateAlert(kind, scene.now.epochUs);
        if create {
          latestAlert := Some(BehaviourAlert(kind, HumanizeAlert(kind, confidence), confidence, cameraId));
          if |activityBuffer| > 0 {
            ClipCallOutcomes(Clip("activity_" + Lower(kind), activityBuffer));
            clips := SaveClipCall(ActivityClipKeywords, Clip("activity_" + Lower(kind), activityBuffer));
          }
        }
      }
    }

    /** `_process_frame`: the frame becomes the current one, the scheduled
        analysis runs over the buffer as it was, then the frame is buffered
        and counted. */
    method ProcessFrame(frame: Frame, scene: Scene, service: Attendance.AttendanceService,
                        employees: map<string, Attendance.Employee>)
      returns (analysis: Analysis, marked: seq<Attendance.Marked>, clips: seq<Clip>)
      requires Valid() && service.Valid()
      modifies this`currentFrame, this`frameCount, this`activityBuffer, this`history
      modifies this`latestAlert, this`lastAlertTime, service
      ensures Valid() && service.Valid()
      ensures currentFrame == Some(frame)
      ensures frameCount == old(frameCount) + 1
      ensures history == old(history) + [frame]
      ensures activityBuffer == Last(old(activityBuffer) + [frame], BufferCapacity)
      ensures analysis == Scheduled(cameraType, old(frameCount))
      ensures analysis == Idle ==>
        latestAlert == old(latestAlert) && lastAlertTime == old(lastAlertTime) &&
        unchanged(service) && marked == [] && clips == []
      ensures analysis == DoorCheck ==>
        lastAlertTime == old(lastAlertTime) &&
        DoorEffects(cameraId, old(activityBuffer), frame, scene, employees,
                    old(service.recentDetections), old(service.records), old(latestAlert),
                    service.recentDetections, service.records, latestAlert, marked, clips)
      ensures analysis == ActivityCheck ==>
        unchanged(service) && marked == [] &&
        ActivityEffects(cameraId, scene, old(lastAlertTime), old(latestAlert),
                        lastAlertTime, latestAlert, clips)
    {
      currentFrame := Some(frame);
      analysis := Scheduled(cameraType, frameCount);
      marked, clips := [], [];
      if analysis == DoorCheck {
        marked, clips := ProcessDoorCamera(frame, scene, service, employees);
      } else if analysis == ActivityCheck {
        clips := ProcessActivityCamera(scene);
      }
      Buffer(frame);
    }

    /** The end of `_process_frame`: the frame joins the bounded buffer and
        the counter. */
    method Buffer(frame: Frame)
      requires Valid()
      modifies this`frameCount, this`activityBuffer, this`history
      ensures Valid()
      ensures frameCount == old(frameCount) + 1
      ensures history == old(history) + [frame]
      ensures activityBuffer == Last(old(activityBuffer) + [frame], BufferCapacity)
    {
      LastAppend(history, frame, BufferCapacity);
      activityBuffer := Last(activityBuffer + [frame], BufferCapacity);
      history := history + [frame];
      frameCount := frameCount + 1;
    }

    /** `_handle_frame_failure`. */
    method HandleFrameFailure(failures: nat) returns (next: Option<nat>)
      modifies this`running
      ensures next == NextFailures(failures, Missed)
      ensures running == (old(running) && next.Some?)
    {
      if failures + 1 > MaxReadFailures {
        running := false;
        return None;
      }
      return Some(failures + 1);
    }

    /** `_handle_capture_error`. */
    method HandleCaptureError(failures: nat) returns (next: Option<nat>)
      modifies this`running
      ensures next == NextFailures(failures, Raised)
      ensures running == (old(running) && next.Some?)
    {
      if failures + 1 > MaxCaptureErrors {
        running := false;
        return None;
      }
      return Some(failures + 1);
    }

    /** One turn of `_capture_loop`: a grabbed frame resets the counter
        and is processed; a failure goes to its handler. */
    method CaptureTurn(t: Tick, failures: nat, service: Attendance.AttendanceService,
                       employees: map<string, Attendance.Employee>)
      returns (next: Option<nat>)
      requires Valid() && service.Valid()
      modifies this, service
      ensures Valid() && service.Valid()
      ensures next == NextFailures(failures, t)
      ensures running == (old(running) && next.Some?)
      ensures history == old(history) + Grabs([t])
    {
      match t
      case Grabbed(frame, scene) =>
        var _, _, _ := ProcessFrame(frame, scene, service, employees);
        next := Some(0);
      case Missed =>
        next := HandleFrameFailure(failures);
      case Raised =>
        next := HandleCaptureError(failures);
    }

    /** `_capture_loop` over the ticks the device delivers: a stopped camera
        takes none; a running one takes them until a failure run stops it,
        processing every frame it grabs. */
    method CaptureLoop(ticks: seq<Tick>, service: Attendance.AttendanceService,
                       employees: map<string, Attendance.Employee>)
      returns (consumed: nat)
      requires Valid() && service.Valid()
      modifies this, service
      ensures Valid() && service.Valid()
      ensures consumed == (if old(running) then StopPoint(ticks) else 0)
      ensures running == (old(running) && FailuresAfter(ticks).Some?)
      ensures history == old(history) + Grabs(ticks[..consumed])
      ensures frameCount == old(frameCount) + |Grabs(ticks[..consumed])|
    {
      var failures: nat := 0;
      consumed := 0;
      while running && consumed < |ticks|
        invariant Valid() && service.Valid()
        invariant consumed <= |ticks|
        invariant !old(running) ==> consumed == 0 && !running
        invariant old(running) ==> StopPoint(ticks[..consumed]) == consumed
        invariant running ==> FailuresAfter(ticks[..consumed]) == Some(failures)
        invariant old(running) && !running ==> FailuresAfter(ticks[..consumed]).None?
        invariant history == old(history) + Grabs(ticks[..consumed])
        decreases |ticks| - consumed
      {
        var t := ticks[consumed];
        ghost var before := ticks[..consumed];
        assert ticks[..consumed + 1] == before + [t];
        GrabsAppend(before, t);
        var next := CaptureTurn(t, failures, service, employees);
        consumed := consumed + 1;
        if next.None? {
          break;
        }
        failures := next.value;
      }
      if old(running) {
        if running {
          assert ticks[..consumed] == ticks;
        } else {
          StopPointKept(ticks, consumed);
        }
      }
    }
  }

  // ---------------------------------------------------------------------
  // The registry
  // ---------------------------------------------------------------------

  /** A stored camera configuration; absent keys are `None`. */
  datatype CameraConfig = CameraConfig(name: Option<string>, source: Option<string>,
                                       location: Option<string>, cameraType: Option<string>)

  datatype Reply = Reply(success: bool, message: string)

  function GetOr(o: Option<string>, default: string): string
  {
    if o.Some? then o.value else default
  }

  /** The type a camera starts with: "activity" when none is stored, and
      security cameras run as activity cameras. */
  function StartType(config: CameraConfig): (t: string)
    ensures t != "security"
    ensures config.cameraType.None? ==> t == "activity"
    ensures config.cameraType.Some? && config.cameraType.value != "security" ==> t == config.cameraType.value
  {
    var t := GetOr(config.cameraType, "activity");
    if t == "security" then "activity" else t
  }

  /** The stored source, "0" (the first webcam) when none is stored. */
  function StartSource(config: CameraConfig): string
  {
    GetOr(config.source, "0")
  }

  function Unavailable(source: string): string
  {
    "Camera source '" + source + "' not available. Check if camera is connected or not in use by another app."
  }

  /** A new camera for a configuration, started. */
  method Launch(id: string, config: CameraConfig, o: Opening) returns (camera: OptimizedCamera, started: bool)
    ensures fresh(camera)
    ensures camera.cameraId == id && camera.source == StartSource(config) && camera.cameraType == StartType(config)
    ensures started == Opens(StartSource(config), o) && camera.running == started
  {
    camera := new OptimizedCamera(id, StartSource(config), StartType(config));
    started := camera.Start(o);
  }

  class CameraRegistry {
    var configs: map<string, CameraConfig>
    var active: map<string, OptimizedCamera>

    /** Every active camera is configured, under its own id and with the
        type its configuration starts it with. */
    ghost predicate Valid()
      reads this
    {
      && active.Keys <= configs.Keys
      && forall id :: id in active ==> active[id].cameraId == id && active[id].cameraType == StartType(configs[id])
    }

    constructor (configs: map<string, CameraConfig>)
      ensures Valid() && this.configs == configs && active == map[]
    {
      this.configs := configs;
      active := map[];
    }

    /** `add_camera`: a known id is refused and nothing changes. */
    method AddCamera(id: string, config: CameraConfig) returns (reply: Reply)
      requires Valid()
      modifies this`configs
      ensures Valid()
      ensures id in old(configs) ==>
        reply == Reply(false, "Camera ID '" + id + "' already exists") && configs == old(configs)
      ensures id !in old(configs) ==>
        reply == Reply(true, "Camera " + id + " added") && configs == old(configs)[id := config]
    {
      if id in configs {
        return Reply(false, "Camera ID '" + id + "' already exists");
      }
      configs := configs[id := config];
      return Reply(true, "Camera " + id + " added");
    }

    /** `start_camera`: unknown and already-active ids are refused; a new
        camera becomes active only when it starts. */
    method StartCamera(id: string, o: Opening) returns (reply: Reply)
      requires Valid()
      modifies this`active
      ensures Valid()
      ensures id !in configs ==>
        reply == Reply(false, "Camera not found in configuration") && active == old(active)
      ensures id in configs && id in old(active) ==>
        reply == Reply(false, "Camera already running") && active == old(active)
      ensures id in configs && id !in old(active) ==>
        && reply.success == Opens(StartSource(configs[id]), o)
        && (reply.success ==>
              && reply.message == "Camera " + id + " started successfully"
              && id in active && fresh(active[id]) && active[id].running
              && active[id].source == StartSource(configs[id])
              && active == old(active)[id := active[id]])
        && (!reply.success ==>
              && reply.message == Unavailable(StartSource(configs[id]))
              && active == old(active))
    {
      if id !in configs {
        return Reply(false, "Camera not found in configuration");
      }
      if id in active {
        return Reply(false, "Camera already running");
      }
      var camera, started := Launch(id, configs[id], o);
      if started {
        active := active[id := camera];
        return Reply(true, "Camera " + id + " started successfully");
      }
      return Reply(false, Unavailable(StartSource(configs[id])));
    }

    /** `stop_camera`: an active camera is stopped and forgotten. */
    method StopCamera(id: string) returns (reply: Reply)
      requires Valid()
      modifies this`active, active.Values`running
      ensures Valid()
      ensures id in old(active) ==>
        reply == Reply(true, "Camera " + id + " stopped") &&
        active == old(active) - {id} && !old(active)[id].running
      ensures id !in old(active) ==>
        reply == Reply(false, "Camera not running") && active == old(active)
      ensures forall c :: c in old(active).Values && (id !in old(active) || c != old(active)[id]) ==>
        c.running == old(c.running)
    {
      if id in active {
        active[id].Stop();
        active := active - {id};
        return Reply(true, "Camera " + id + " stopped");
      }
      return Reply(false, "Camera not running");
    }

    /** `delete_camera`: the id leaves both maps, an active camera being
        stopped first. */
    method DeleteCamera(id: string) returns (reply: Reply)
      requires Valid()
      modifies this, active.Values`running
      ensures Valid()
      ensures reply == Reply(true, "Camera " + id + " deleted")
      ensures configs == old(configs) - {id} && active == old(active) - {id}
      ensures id in old(active) ==> !old(active)[id].running
      ensures forall c :: c in old(active).Values && (id !in old(active) || c != old(active)[id]) ==>
        c.running == old(c.running)
    {
      if id in active {
        active[id].Stop();
        active := active - {id};
      }
      if id in configs {
        configs := configs - {id};
      }
      return Reply(true, "Camera " + id + " deleted");
    }
  }
}
