# SmartVision attendance and biometric backend, modelled in Dafny

SmartVision AI Pro is a factory monitoring backend. Door cameras recognise
employees and record their attendance: alternating entries and exits per day,
only during the shift and outside lunch, with a 30-second cooldown per
employee. Activity cameras watch for non-working behaviour and raise
throttled alerts. Door cameras save video clips to a video store; the
activity cameras' clip save always fails, because it passes a keyword the
store's save does not take, and the error is caught.
Employees register with photos taken from several angles. Each photo becomes
a biometric profile: a face box, the eyes, quality scores, an iris ("retina")
pattern and a face encoding. A recogniser matches new faces against the stored
embeddings by nearest distance under a threshold.

The model has one module per backend file:

- `Attendance`: the attendance service.
- `AttendanceApi`: the attendance endpoints.
- `DeepFace`: the embedding store and recogniser.
- `VideoDb`: the clip store.
- `BiometricCapture`: landmark detection, face quality, LBP and iris codes.
- `PerfectBiometric`: the "perfect" registration.
- `EnhancedBiometric`: the comprehensive registration.
- `Camera`: the camera objects and their registry.

Two more modules hold shared parts. `Common` has options, string splitting,
containment and zero padding. `ImageData` has data-URL stripping, cropping,
flattening, iris ring sampling and the list padding loop.

Services whose fields change in place are classes:

- `AttendanceService`: the cooldown map and the day records.
- `DeepFaceService`: the embedding store.
- `ClipStore`: the video collection.
- `OptimizedCamera`: frame counter, bounded frame buffer, latest alert, alert times and running flag.
- `CameraRegistry`: the configured and active cameras.

Each method is proved against a function over values, and the lemmas beside
those functions state what the source promises.

Values the system gets from outside are parameters:

- the clock (`Moment`, `DateTime`, microsecond instants);
- OpenCV detections (face and eye boxes, grey-level grids);
- model embeddings and the distance function;
- the decoder of base64 images;
- the outcome of database writes;
- random draws.

## Model

| member | source | states |
|---|---|---|
| Attendance.Hour12Field | backend/services/attendance_service.py:24 | strptime's `%I` reads a clock hour 1..12 of one or two digits, never past the input |
| Attendance.Hour24Field | backend/services/attendance_service.py:28 | `%H` reads an hour 0..23 of one or two digits |
| Attendance.MinuteField | backend/services/attendance_service.py:24-28 | `%M` reads a minute 0..59 of one or two digits |
| Attendance.Parse12 | backend/services/attendance_service.py:24 | a successful `%I:%M %p` parse is a time of day (under 1440 minutes) |
| Attendance.Parse24 | backend/services/attendance_service.py:28 | a successful `%H:%M` parse is a time of day |
| Attendance.ParseTime | backend/services/attendance_service.py:21-30 | the 12-hour reading wins, then the 24-hour reading, then the default; an absent field gives the default |
| Attendance.Parse12OfFormat12 | backend/services/attendance_service.py:24 | every `%I:%M %p` rendering of a time of day parses back to that exact time (12 AM is midnight, 12 PM is noon) |
| Attendance.Parse12OfClock12 | backend/services/attendance_service.py:24 | a padded clock hour, padded minute and AM/PM suffix read back as the 24-hour time they denote |
| Attendance.Parse24OfFormat24 | backend/services/attendance_service.py:24-28 | a `%H:%M` rendering is refused by the 12-hour attempt and read back exactly by the 24-hour one |
| Attendance.DefaultShiftStartTime | backend/services/attendance_service.py:32 | the default "10:30 AM" is 10:30 |
| Attendance.DefaultShiftEndTime | backend/services/attendance_service.py:33 | the default "06:00 PM" is 18:00 |
| Attendance.DefaultLunchStartTime | backend/services/attendance_service.py:34 | the default "01:30 PM" is 13:30 |
| Attendance.DefaultLunchEndTime | backend/services/attendance_service.py:35 | the default "02:30 PM" is 14:30 |
| Attendance.IsWithinShift | backend/services/attendance_service.py:14-47 | only a known employee can be on shift, and never on a shift that ends before it starts, since times of day are compared |
| Attendance.CooldownAfterRecord | backend/services/attendance_service.py:49-58 | once noted at an instant, an employee is recorded again exactly from 30 seconds later; nobody else's cooldown changes |
| Attendance.CountsAddUp | backend/services/attendance_service.py:116-117 | entries plus exits count every event of a record |
| Attendance.AlternatingCounts | backend/services/attendance_service.py:98-117 | in an alternating list starting with an entry there are ceil(n/2) entries and floor(n/2) exits |
| Attendance.FirstRecordWellFormed | backend/services/attendance_service.py:79-95 | a first detection of the day makes a well-formed record with one entry and no exit |
| Attendance.AppendedWellFormed | backend/services/attendance_service.py:96-130 | a later detection keeps the old events as a prefix, appends one event of the alternating kind, recounts both totals (they differ by at most one), changes `last_exit` only on an exit, and keeps the first entry and status |
| Attendance.NextKindAlternates | backend/services/attendance_service.py:98-106 | the next kind is an entry after an even number of events and an exit after an odd number, and it keeps the list alternating |
| Attendance.WellFormedBalance | backend/services/attendance_service.py:79-130 | in every record the service writes, the totals count the events and entries exceed exits by the parity of the event count |
| Attendance.OutcomeSkipsCooled | backend/services/attendance_service.py:49-73 | an id whose last detection is this instant is not recorded again in the same frame |
| Attendance.OutcomeProperties | backend/services/attendance_service.py:132-150 | within a frame each id is recorded at most once, only identified faces are recorded, and there are no more results than faces |
| Attendance.AttendanceService.constructor | backend/services/attendance_service.py:10-12 | the service starts with no recent detections and no records |
| Attendance.AttendanceService.RecordAttendance | backend/services/attendance_service.py:60-130 | outside the shift, at lunch or within the cooldown nothing changes and nothing is returned; otherwise the detection time is stored and the day record is created with an entry or extended with the alternating kind, which becomes its latest event |
| Attendance.AttendanceService.HandleFace | backend/services/attendance_service.py:136-148 | a face without an id, with an empty id or with the id "Unknown" is skipped; any other face is recorded and reported with its name when accepted |
| Attendance.AttendanceService.ProcessDoorCameraFrame | backend/services/attendance_service.py:132-150 | the reported (id, name) pairs and the new cooldown map are those of the frame's specification `Outcome`; every reported employee's day record ends with the reported kind; the collection is `RecordsAfter` the reported detections: the keys grow by exactly the reported (id, date) keys, each of those holds a first record or the stored one extended by one event (`DayRecord`), and every other record is unchanged |
| Attendance.RecordsAfterKeys | backend/services/attendance_service.py:75-130 | recording a frame's detections adds exactly their (id, date) keys to the collection |
| Attendance.RecordsAfterKept | backend/services/attendance_service.py:75-130 | a record whose key was not recorded in the frame is kept as it is |
| Attendance.RecordsAfterWritten | backend/services/attendance_service.py:75-130 | with distinct ids, each recorded key holds a first record (one entry) or the stored record extended by one event |
| Attendance.FrameRecords | backend/services/attendance_service.py:132-150 | for the detections a frame reports, the three facts above hold: the ids are distinct because each is recorded at most once |
| AttendanceApi.GetTodayAttendance | backend/api/attendance_api.py:11-16 | the reply holds the record exactly when today's record of the employee exists, else the fixed message |
| AttendanceApi.RecordedIsVisible | backend/api/attendance_api.py:11-16 | after a recorded detection, today's reply shows the record, ending with the kind just recorded |
| AttendanceApi.GetMonthlyAttendance | backend/api/attendance_api.py:18-36 | the summary counts one present day per record and sums entries and exits |
| AttendanceApi.MonthTotalsBalance | backend/api/attendance_api.py:24-26 | over well-formed records, entries plus exits are all events, exits never exceed entries, entries exceed exits by at most the number of days, and every present day has an entry |
| AttendanceApi.MonthSummaryBalance | backend/api/attendance_api.py:18-36 | the monthly summary satisfies days present <= total entries <= total exits + days present |
| AttendanceApi.GetAllTodayAttendance | backend/api/attendance_api.py:38-68 | one row per listed employee, in order, each the row of that employee's record |
| AttendanceApi.RowMeaning | backend/api/attendance_api.py:44-66 | a row is "present" exactly when the employee has a record today; a present row has a first entry and entries minus exits of 0 or 1; an absent row shows no events |
| DeepFace.EmployeeIndex | backend/services/deepface_service.py:124-131 | finds the position of an employee key in the embeddings dictionary, or reports that there is none |
| DeepFace.AngleIndex | backend/services/deepface_service.py:124-131 | finds the position of an angle key in an employee's dictionary, or reports that there is none |
| DeepFace.Keys | backend/services/deepface_service.py:320-329 | the employee keys in insertion order |
| DeepFace.PutAngleProperties | backend/services/deepface_service.py:127-131 | storing an angle keeps the angle keys distinct, stores the embedding under the angle and leaves every other angle where it was |
| DeepFace.PutExisting | backend/services/deepface_service.py:124-131 | storing for a known employee updates exactly that (employee, angle) lookup and keeps the key order |
| DeepFace.PutNew | backend/services/deepface_service.py:124-131 | storing for a new employee updates exactly that lookup and appends the id to the keys |
| DeepFace.PutProperties | backend/services/deepface_service.py:124-131 | `setdefault(id, {})[angle] = e`: the store stays a dictionary, the new lookup gives `e`, every other lookup is unchanged, and the id is appended to the keys only when new |
| DeepFace.BestIndex | backend/services/deepface_service.py:172-194 | the index of the first stored embedding at the smallest distance from the input; none only when nothing is stored |
| DeepFace.ScanAngles | backend/services/deepface_service.py:176-194 | the inner loop over one employee's angles keeps the best candidate of everything visited, replacing it only when strictly closer |
| DeepFace.Confidence | backend/services/deepface_service.py:193 | confidence is 1 - d below distance 1, else 0, and lies in [0, 1] |
| DeepFace.RecognizeMeaning | backend/services/deepface_service.py:158-220 | an empty store recognises nobody; a match is under the threshold and is a stored (employee, angle) at the minimum distance; a refusal means every stored embedding is at least the threshold away |
| DeepFace.TrainingCounts | backend/services/deepface_service.py:293-313 | trained plus failed equals the employees with a face image, which are at most all employees |
| DeepFace.DeepFaceService.constructor | backend/services/deepface_service.py:27-39 | the service starts from the loaded embeddings |
| DeepFace.DeepFaceService.RegisterEmployeeFace | backend/services/deepface_service.py:110-156 | an undecodable image and a missing embedding each give their message and leave the store alone; otherwise the embedding is stored under (id, angle) and reported with its size |
| DeepFace.DeepFaceService.RecognizeFace | backend/services/deepface_service.py:158-220 | the nested loop answers as the recogniser `Recognize` does |
| DeepFace.DeepFaceService.TrainAllEmployees | backend/services/deepface_service.py:289-318 | every employee with an image is registered in order; the counters are the trained and failed counts |
| DeepFace.DeepFaceService.GetTrainingStats | backend/services/deepface_service.py:320-329 | lists the stored employees in insertion order (`Keys`), each once, with their count |
| VideoDb.ParseStamp | backend/services/videodb_integration.py:210 | a successful `%Y%m%d%H%M%S` parse is a valid date and time |
| VideoDb.ParseStampOfFormat | backend/services/videodb_integration.py:96-97 | a timestamp written by strftime is read back to the same date and time |
| VideoDb.LastTwoFields | backend/services/videodb_integration.py:207-209 | a clip name whose head holds an underscore still splits into at least four fields, the last two being date and time |
| VideoDb.CreatedAtOfClipName | backend/services/videodb_integration.py:204-212 | the creation time search reads from a saved clip's name is the time it was saved at |
| VideoDb.SelectionMeaning | backend/services/videodb_integration.py:196-224 | every search hit comes from a stored video passing both filters, and there are no more hits than videos |
| VideoDb.SelectionPrefix | backend/services/videodb_integration.py:226-227 | the hits among the first n videos are a prefix of all hits, so stopping early returns the first hits |
| VideoDb.SavedClipIsSelected | backend/services/videodb_integration.py:196-202 | a saved clip passes the filters of its own camera and event type |
| VideoDb.ClipStore.constructor | backend/services/videodb_integration.py:17-26 | the store starts enabled or disabled, with the given collection |
| VideoDb.ClipStore.SaveSecurityClip | backend/services/videodb_integration.py:58-116 | a disabled store, an empty frame list or a failed upload saves nothing; otherwise one video is appended with the generated name and description and its id is returned |
| VideoDb.ClipStore.SearchClips | backend/services/videodb_integration.py:176-233 | a disabled store finds nothing; otherwise the first `limit` selected videos in collection order (at least one when any is selected) |
| VideoDb.ClipStore.DeleteOldClips | backend/services/videodb_integration.py:264-301 | deletion is switched off, so nothing is removed and the count is zero |
| Common.Split | backend/services/videodb_integration.py:207 | `str.split(sep)`: at least one field, and no field holds the separator |
| Common.SplitJoin | backend/services/videodb_integration.py:207 | joining the fields of `split(sep)` with the separator gives the input back |
| Common.JoinSplit | backend/services/videodb_integration.py:207 | fields without the separator are exactly what splitting their join yields |
| BiometricCapture.BitsValueBit | backend/services/biometric_capture.py:386-400 | bit 7 - k of an LBP code is comparison k |
| BiometricCapture.LbpCode | backend/services/biometric_capture.py:386-400 | an 8-neighbour LBP code is below 256 |
| BiometricCapture.LbpCodeBits | backend/services/biometric_capture.py:386-400 | bit 7 - k of a pixel's code is set exactly when neighbour k is at least the centre |
| BiometricCapture.LbpCodeFlat | backend/services/biometric_capture.py:386-400 | in a flat image every code is 255 |
| BiometricCapture.PixelCode | backend/services/biometric_capture.py:389-398 | the bit-by-bit loop computes the pixel's LBP code |
| BiometricCapture.CalculateLbpCodes | backend/services/biometric_capture.py:382-407 | a fresh (h-2) x (w-2) grid holds the code of every interior pixel |
| BiometricCapture.RingFeatures | backend/services/biometric_capture.py:320-332 | the in-bounds ring samples, each in [0, 1] |
| BiometricCapture.IrisCode | backend/services/biometric_capture.py:335-350 | a 4-neighbour texture code is at most 15 |
| BiometricCapture.IrisFeaturesMeaning | backend/services/biometric_capture.py:308-355 | iris features lie in [0, 1], number at most max(ring samples, 100), and are empty exactly when no ring sample is in bounds |
| BiometricCapture.TextureColumn | backend/services/biometric_capture.py:338-350 | one column of the texture loop appends each code while fewer than 100 features are held |
| BiometricCapture.TextureStage | backend/services/biometric_capture.py:335-350 | the column loop leaves the ring features followed by the first codes that fit under 100 features |
| BiometricCapture.ExtractIrisFeatures | backend/services/biometric_capture.py:308-355 | the loops compute `IrisFeatures` |
| BiometricCapture.RetinaMeaning | backend/services/biometric_capture.py:260-272 | a retina is detected exactly with a pupil and at least 20 features; then its quality is 40..100 and it keeps the first min(n, 50) features; otherwise quality 0 and no patterns |
| BiometricCapture.CollectedMeaning | backend/services/biometric_capture.py:218-259 | each pupil record has radius above 3, every feature lies in [0, 1], and each eye adds at most 128 features |
| BiometricCapture.AnalyzeRetinaPatterns | backend/services/biometric_capture.py:218-272 | the loop over the eyes gives the retina verdict on what it collects |
| BiometricCapture.BrightnessScore | backend/services/biometric_capture.py:141-145 | full marks on [80, 180], always within [0, 100] |
| BiometricCapture.SizeScore | backend/services/biometric_capture.py:151-153 | the size score lies in [0, 100] |
| BiometricCapture.FaceQualityRange | backend/services/biometric_capture.py:133-158 | the weighted quality is at most 100, and not negative for a non-negative variance and deviation |
| BiometricCapture.ReportedQuality | backend/services/biometric_capture.py:103-106 | a quality under 30 is raised to 50; others are kept |
| BiometricCapture.SymmetryMeaning | backend/services/biometric_capture.py:160-175 | symmetry lies in [0, 100], and a mirror-symmetric face scores 100 |
| BiometricCapture.MirrorScore | backend/services/perfect_biometric_service.py:125-129 | the registration services' symmetry score is NaN (`None`) exactly when the face is narrower than two pixels or of zero height |
| BiometricCapture.MirrorScoreMeaning | backend/services/enhanced_biometric_service.py:88-91 | a numeric symmetry score lies in [0, 100], equals `calculate_face_symmetry`'s score and is 100 for a mirror-symmetric face |
| BiometricCapture.LargestBox | backend/services/biometric_capture.py:187 | the first box of largest area (stable descending sort), skipping one index |
| BiometricCapture.EyePairMeaning | backend/services/biometric_capture.py:181-216 | with two or more eyes the pair is the centres of the first eye of largest area and of the first of largest area among the others, as the stable decreasing sort orders them; with fewer there is none |
| BiometricCapture.EyeDistanceSquared | backend/services/biometric_capture.py:201-216 | the eye distance is 0 with fewer than two eyes |
| BiometricCapture.DetectFaceLandmarksMeaning | backend/services/biometric_capture.py:49-131 | no face and several faces are refused with their messages; one face is captured with its box, eye count, quality >= 30, symmetry in [0, 100], and a retina marked detected when there are no eyes |
| ImageData.StripDataUrl | backend/services/perfect_biometric_service.py:29-30 | the payload holds no comma, and an input without a comma is kept whole |
| ImageData.StripDataUrlOfDataUrl | backend/services/perfect_biometric_service.py:29-30 | `header,payload` gives the payload, also with more fields after it |
| ImageData.StripDataUrlIdempotent | backend/services/enhanced_biometric_service.py:39-40 | stripping twice is stripping once |
| ImageData.Crop | backend/services/perfect_biometric_service.py:88 | the region `img[y:y+h, x:x+w]` of a box inside the image, pixel by pixel |
| ImageData.FlattenOrder | backend/services/perfect_biometric_service.py:162-167 | the flattened region is row-major: entry i*w + j is pixel (i, j) scaled by 1/255 |
| ImageData.SamplePointInside | backend/services/perfect_biometric_service.py:245-250 | every ring point of a non-empty eye lies inside the eye |
| ImageData.IrisSamplesCount | backend/services/perfect_biometric_service.py:238-251 | each eye that fits and is not empty adds exactly 24 samples, every other eye none |
| ImageData.SampleEye | backend/services/perfect_biometric_service.py:245-251 | the loop over the 24 angles computes the eye's samples |
| ImageData.SampleIris | backend/services/perfect_biometric_service.py:238-251 | the loop over the eyes computes the samples, eye after eye |
| ImageData.PupilData | backend/services/perfect_biometric_service.py:258-264 | one pupil record of radius 5 per eye, in order |
| ImageData.FirstPairDistanceSquared | backend/services/perfect_biometric_service.py:114-119 | the distance is 0 with fewer than two eyes |
| ImageData.RepeatedMeaning | backend/services/perfect_biometric_service.py:253-255 | padding by repetition keeps the list as a prefix, reaches max(length, target) and adds only entries of the list; an empty list stays empty |
| ImageData.PadByRepeating | backend/services/perfect_biometric_service.py:166-170 | the guarded padding loop computes `Repeated` |
| ImageData.PadLoopNeverEnds | backend/services/perfect_biometric_service.py:253-254 | the loop as written never ends on an empty list |
| ImageData.PadLoopAgrees | backend/services/perfect_biometric_service.py:253-254 | on a non-empty list the loop as written ends with the guarded loop's result |
| PerfectBiometric.DecodeImage | backend/services/perfect_biometric_service.py:27-47 | a decoded image is never empty |
| PerfectBiometric.DecodeIgnoresHeader | backend/services/perfect_biometric_service.py:29-30 | a data URL decodes as its bare payload |
| PerfectBiometric.FirstHit | backend/services/perfect_biometric_service.py:62-69 | the boxes of the first parameter pair that finds a face; empty only when none does |
| PerfectBiometric.Clamp | backend/services/perfect_biometric_service.py:82-86 | the clamped box lies in the image, never grows, and a box already inside is kept |
| PerfectBiometric.ClampIdempotent | backend/services/perfect_biometric_service.py:82-86 | clamping twice is clamping once |
| PerfectBiometric.FaceBoxMeaning | backend/services/perfect_biometric_service.py:60-86 | the face is the clamped first largest box of the first successful pair, or the clamped centre two thirds |
| PerfectBiometric.EyesMeaning | backend/services/perfect_biometric_service.py:93-112 | at most two eyes of the strict detection, else of the relaxed one, else the synthetic pair |
| PerfectBiometric.RetinaDataMeaning | backend/services/perfect_biometric_service.py:233-272 | always detected with quality 100; with samples the pattern has 50 values beginning with the samples; pupils of radius 5 per kept eye |
| PerfectBiometric.ExtractRealRetinaData | backend/services/perfect_biometric_service.py:233-272 | the loops compute `RetinaData` |
| PerfectBiometric.EncodingMeaning | backend/services/perfect_biometric_service.py:145-170 | the DeepFace embedding cut to 265 when there is one; otherwise the region's pixels, padded by repetition to exactly 265 |
| PerfectBiometric.EncodeFace | backend/services/perfect_biometric_service.py:145-170 | the encoding step with its padding loop computes `Encoding` |
| PerfectBiometric.ProfileMeaning | backend/services/perfect_biometric_service.py:49-231 | every profile has a detected retina, a symmetry score in [0, 100] when it is a number, one or two eyes and at most 265 encoding values; a missing image gives the synthetic quality 85, a real one quality 100 and a face box inside the image |
| PerfectBiometric.DetectFaces | backend/services/perfect_biometric_service.py:60-74 | the detection ladder computes the candidates |
| PerfectBiometric.ExtractRealBiometricData | backend/services/perfect_biometric_service.py:49-187 | the extraction computes `ProfileOf`: face box, eyes, area, quality, eye distance, symmetry score, retina scan and encoding |
| PerfectBiometric.TinyPhotoRetinaNeverEnds | backend/services/perfect_biometric_service.py:253-254 | a 6x6 photo with no detections gets 0x0 synthetic eyes, no iris samples, and a pad loop that never ends |
| PerfectBiometric.StoredFaceImageDecodes | backend/services/perfect_biometric_service.py:348-354 | the stored face image strips back to the main image and decodes like it, and is empty or starts with `data:` |
| PerfectBiometric.TotalFeaturesBound | backend/services/perfect_biometric_service.py:385 | the feature count is at most 265 per angle |
| PerfectBiometric.ProcessedAngleSound | backend/services/perfect_biometric_service.py:290-295 | every processed angle comes from an upload whose image decodes |
| PerfectBiometric.ProcessedAngleComplete | backend/services/perfect_biometric_service.py:290-310 | every upload whose image decodes has its angle processed |
| PerfectBiometric.ProcessedDistinct | backend/services/perfect_biometric_service.py:290-310 | distinct upload angles are stored once each |
| PerfectBiometric.CollectProfiles | backend/services/perfect_biometric_service.py:290-310 | the loop builds the profile, image, angle and quality lists of the processed entries and their feature count |
| PerfectBiometric.RegistrationMeaning | backend/services/perfect_biometric_service.py:281-387 | all lists align by angle with at least one angle; every received image is counted; with nothing processed the synthetic Center entry is stored; the face image strips to the main image |
| PerfectBiometric.RetinaScansDetected | backend/services/perfect_biometric_service.py:331 | `retina_scans_detected` counts the stored profiles whose retina is detected, never more than there are |
| PerfectBiometric.AllRetinasDetected | backend/services/perfect_biometric_service.py:331 | when every stored profile reports a detected retina, all are counted |
| PerfectBiometric.RegistrationRetinas | backend/services/perfect_biometric_service.py:289-331 | every stored profile has its retina detected, so `retina_scans_detected` equals the number of stored angles |
| PerfectBiometric.RegistrationProfileAt | backend/services/perfect_biometric_service.py:298-319 | each stored angle carries the profile of its photo, or the synthetic profile when nothing was processed |
| PerfectBiometric.RegistrationFeatures | backend/services/perfect_biometric_service.py:385 | the reported feature count is at most 265 per stored angle |
| PerfectBiometric.RegisterPerfectBiometric | backend/services/perfect_biometric_service.py:281-387 | the method computes `RegistrationOf` |
| EnhancedBiometric.DecodeIgnoresHeader | backend/services/enhanced_biometric_service.py:36-46 | a data URL decodes as its payload, whatever follows a second comma |
| EnhancedBiometric.SimulatedRetinaMeaning | backend/services/enhanced_biometric_service.py:127-166 | always detected with quality 100; with samples, 50 values beginning with them; one pupil record of radius 5 per kept eye |
| EnhancedBiometric.SimulatedPaddingAgrees | backend/services/enhanced_biometric_service.py:146-147 | with samples, the loop as written ends with the modelled pattern |
| EnhancedBiometric.SimulateRetinaScan | backend/services/enhanced_biometric_service.py:127-166 | the loops compute `SimulatedRetina` |
| EnhancedBiometric.Face | backend/services/enhanced_biometric_service.py:57-59 | the face is a detected box of largest area, inside the image |
| EnhancedBiometric.DeepEncoding | backend/services/enhanced_biometric_service.py:94-102 | the embedding cut to 265, empty without one |
| EnhancedBiometric.ComprehensiveMeaning | backend/services/enhanced_biometric_service.py:48-125 | no profile exactly when no face is found; otherwise the first largest face, at most two eyes, the eye distance 0 with fewer than two, quality 100, a detected retina, a symmetry score in [0, 100] when it is a number, at most 265 encoding values |
| EnhancedBiometric.FaceWithoutEyesNeverEnds | backend/services/enhanced_biometric_service.py:146-147 | a face without eyes gives no iris samples, and the pad loop as written never ends |
| EnhancedBiometric.ExtractComprehensiveBiometricData | backend/services/enhanced_biometric_service.py:48-125 | the extraction computes `Comprehensive`: face box, eyes, area, quality, eye distance, symmetry score, simulated retina and encoding |
| EnhancedBiometric.ProcessedAngleSound | backend/services/enhanced_biometric_service.py:184-194 | every processed angle comes from an upload that decodes and shows a face |
| EnhancedBiometric.ProcessedAngleComplete | backend/services/enhanced_biometric_service.py:184-200 | every upload that decodes and shows a face has its angle processed |
| EnhancedBiometric.AllEncodingsMeaning | backend/services/enhanced_biometric_service.py:199-200 | the concatenated encodings are as long as all encodings together and begin with the first angle's |
| EnhancedBiometric.CenterImageMeaning | backend/services/enhanced_biometric_service.py:208-211 | Center is chosen, else Frontal (when Center is absent), else ""; for either image, a data URL stores its payload, a `data:image` text without a comma fails, and any other text is stored as it is |
| EnhancedBiometric.CollectComprehensive | backend/services/enhanced_biometric_service.py:184-203 | the loop builds the lists and the concatenated encodings of the processed entries |
| EnhancedBiometric.RegistrationMeaning | backend/services/enhanced_biometric_service.py:174-266 | refused exactly when nothing is processed; registered exactly when a document is built and saved; the lists align by angle; the stored encoding is the concatenation cut to 265; the feature count is the whole concatenation |
| EnhancedBiometric.RegistrationRetinas | backend/services/enhanced_biometric_service.py:183-237 | every stored profile has its retina detected, so `retina_scans_detected` equals the number of processed angles |
| EnhancedBiometric.StoredEncodingStart | backend/services/enhanced_biometric_service.py:228 | the stored encoding begins with the first usable angle's DeepFace encoding |
| EnhancedBiometric.RegistrationProfileAt | backend/services/enhanced_biometric_service.py:193-196 | each stored angle carries its photo's profile, of quality 100 |
| EnhancedBiometric.RegisterEmployeeComprehensive | backend/services/enhanced_biometric_service.py:174-266 | the method computes `RegistrationOf` |
| Camera.Last | backend/optimized_camera_system.py:309 | `xs[-k:]` is the last min(k, n) items, a suffix of the list |
| Camera.LastAppend | backend/optimized_camera_system.py:44 | a bounded deque holds the most recent frames, whatever was dropped before |
| Camera.SecurityFrames | backend/optimized_camera_system.py:329-331 | the security clip is the last 300 buffered frames, or 30 copies of the current frame when the buffer is empty |
| Camera.DoorCadenceCount | backend/optimized_camera_system.py:172-173 | a door camera analyses one frame in ten, starting with the first |
| Camera.ActivityCadenceCount | backend/optimized_camera_system.py:174-175 | an activity camera analyses one frame in forty-five |
| Camera.OtherTypesIdle | backend/optimized_camera_system.py:172-175 | other camera types never analyse a frame |
| Camera.FailuresAreTrailing | backend/optimized_camera_system.py:137-156 | while the loop runs, the counter is the number of trailing failures, at most 30, and at most 10 after an exception |
| Camera.FailureRunsStop | backend/optimized_camera_system.py:286-302 | 31 failed reads in a row, or 11 failures ending in an exception, stop the loop |
| Camera.StopCondition | backend/optimized_camera_system.py:286-302 | the loop stops exactly on a failure that takes the trailing run past the limit of its kind |
| Camera.FirstRecognizedMeaning | backend/optimized_camera_system.py:378-392 | a match comes from the first threshold that recognises, every stricter one having failed |
| Camera.LadderMatchesLenientQuery | backend/optimized_camera_system.py:366-392 | over one store, the ladder recognises exactly when the most lenient threshold does, and the same employee |
| Camera.HumanizeAlert | backend/optimized_camera_system.py:415-424 | a known behaviour's message starts with its text, whose separator is the file's literal U+00E2 U+20AC U+201D; any other starts with "Unusual behavior detected: " and the type; every message ends with the formatted confidence |
| Camera.HumanizeInjective | backend/optimized_camera_system.py:415-424 | distinct alert types never share a message |
| Camera.SaveClipCall | backend/services/videodb_integration.py:58-64 | a call of `save_security_clip` hands its clip over exactly when every keyword it passes is a parameter |
| Camera.ClipCallOutcomes | backend/optimized_camera_system.py:454-463 | the attendance and intruder saves reach the store; the activity save, which passes `thumbnail`, never does |
| Camera.ThrottleAfterAlert | backend/optimized_camera_system.py:405-413 | raising an alert silences its type for 60 seconds and leaves other types alone |
| Camera.Attempts | backend/optimized_camera_system.py:85 | RTSP sources get five first-frame attempts, others one |
| Camera.OptimizedCamera.constructor | backend/optimized_camera_system.py:34-47 | a new camera is stopped, with no frames, no alert and no alert times |
| Camera.OptimizedCamera.Start | backend/optimized_camera_system.py:49-131 | a running camera reports success; a stopped one runs exactly when it connects, reads a first frame within its attempts and does not time out |
| Camera.OptimizedCamera.Stop | backend/optimized_camera_system.py:132-135 | the camera no longer runs |
| Camera.OptimizedCamera.GetLatestAlert | backend/optimized_camera_system.py:361-364 | hands over the stored alert and clears it |
| Camera.OptimizedCamera.ShouldCreateAlert | backend/optimized_camera_system.py:405-413 | answers whether the type is due and records the time only then |
| Camera.OptimizedCamera.AdaptiveFaceRecognition | backend/optimized_camera_system.py:366-392 | nothing for a frame that does not encode; otherwise the reply at the first recognising threshold |
| Camera.OptimizedCamera.ProcessDoorCamera | backend/optimized_camera_system.py:180-284 | a match goes to the attendance service, whose records become `RecordsAfter` the recorded events; each recorded event sets the alert and saves the last 150 frames; no match leaves the records alone, and with faces raises the intruder alert and a security clip |
| Camera.DoorRecords | backend/optimized_camera_system.py:226-237 | a door frame records at most one event, for the recognised employee: only that employee's day record changes, to `DayRecord`, and with no record nothing changes |
| Camera.OptimizedCamera.ProcessActivityCamera | backend/optimized_camera_system.py:191-224 | a due behaviour other than `working_ok` records its alert time and sets the alert with its message; no clip is saved, because the save raises on its `thumbnail` keyword and the error is caught; anything else changes nothing |
| Camera.OptimizedCamera.ProcessFrame | backend/optimized_camera_system.py:165-178 | the frame becomes current, joins the 300-frame buffer and is counted; the analysis runs on the scheduled frames only, with the door effects (attendance records included) or the activity effects (no clip) |
| Camera.OptimizedCamera.Buffer | backend/optimized_camera_system.py:177-178 | the frame joins the bounded buffer and the counter |
| Camera.OptimizedCamera.HandleFrameFailure | backend/optimized_camera_system.py:286-293 | counts a failed read and stops the camera past 30 |
| Camera.OptimizedCamera.HandleCaptureError | backend/optimized_camera_system.py:295-302 | counts an exception and stops the camera past 10 |
| Camera.OptimizedCamera.CaptureTurn | backend/optimized_camera_system.py:139-154 | a grabbed frame resets the counter and is processed; a failure goes to its handler |
| Camera.OptimizedCamera.CaptureLoop | backend/optimized_camera_system.py:137-156 | the loop takes the ticks up to the one that stops it, processes every frame among them, and keeps running only if no failure run passes its limit |
| Camera.StartType | backend/optimized_camera_system.py:502-505 | a camera starts as "activity" when no type is stored, and never as "security" |
| Camera.Launch | backend/optimized_camera_system.py:500-513 | a new camera with the configured source and type, running exactly when it opens |
| Camera.CameraRegistry.constructor | backend/optimized_camera_system.py:27-31 | the registry starts from the stored configurations, with no active camera |
| Camera.CameraRegistry.AddCamera | backend/optimized_camera_system.py:467-476 | a known id is refused without change; a new one is configured |
| Camera.CameraRegistry.StartCamera | backend/optimized_camera_system.py:493-519 | unknown and running ids are refused; a new camera becomes active only when it starts |
| Camera.CameraRegistry.StopCamera | backend/optimized_camera_system.py:522-533 | an active camera is stopped and forgotten; otherwise "Camera not running"; only `running` of active cameras may change, and every other active camera keeps its `running` |
| Camera.CameraRegistry.DeleteCamera | backend/optimized_camera_system.py:536-548 | the id leaves both maps, an active camera being stopped first; only `running` of active cameras may change, and every other active camera keeps its `running` |

## Left out

- The clock is a parameter (`Moment`, `DateTime`, microsecond instants). `datetime.now()` is not modelled, and every reading inside one call uses the same instant.
- Database reads and writes are not modelled:
  - employee documents, attendance records, camera configurations and employee lists are maps or sequences passed in or held by the classes;
  - the outcome of a write is a boolean parameter (`saved`), or is dropped where the response does not depend on it.
- Records with missing fields are not modelled. `attendance_api.py` reads optional fields with `.get` defaults, but every record the service writes carries them, so records are always complete.
- The VideoDB SDK is not modelled:
  - uploads, scene indexing, semantic search, highlights and summaries (`videodb_integration.py:118-174`);
  - `get_video_url`;
  - the cleanup thread.

  An upload's outcome is a parameter of `SaveSecurityClip`, and `SearchClips` reads the modelled collection.
- OpenCV and DeepFace are inputs:
  - face and eye cascades, `imdecode`, base64 and JPEG encoding;
  - Laplacian variance, mean and standard deviation;
  - embedding models and distances;
  - the behaviour classifier of the activity monitor.

  Their outputs are given as boxes, grids, reals and functions. Floating point is modelled as exact reals. Trigonometry and square roots are inputs: cos/sin pairs for the ring, squared eye distances.
- `deepface_service.py` is not modelled in full:
  - `detect_faces`, `mark_attendance` and `process_camera_frame` are left out;
  - saving and loading the pickle file are left out (the constructor takes the loaded store).
- In `biometric_capture.py`, several steps are left out: `enhance_image_quality`, pupil detection (an input), the histogram and HOG of `extract_face_encoding`, and the image encoding of `process_biometric_capture`.
- `Attendance.Hour24Field` and `Attendance.MinuteField` accept ASCII digits only. In Python 3, the `\d` of strptime's `%H` and `%M` patterns also matches other Unicode decimal digits, which `int()` reads; the model refuses them and falls back to the default.
- `VideoDb.ParseStamp` accepts ASCII digits only. The `\d` of strptime's `%Y%m%d%H%M%S` pattern also matches other Unicode decimal digits, which `int()` reads, so a stored name with such digits gets its creation time from the name in the source but the current time in the model.
- `Attendance.LeadingBlanks` treats the six ASCII whitespace characters as blanks. The `\s+` that stands for the format's space in strptime also matches other Unicode whitespace.
- `PerfectBiometric.ExtractRealBiometricData` does not model `has_smile` (a mean comparison on a mouth region bounded by float products), brightness, contrast, sharpness, the face angle, `retina_hash` (Python's salted string hash) or `captured_at` (the clock). The symmetry score is modelled. None of these values affects the registration's lists or counts.
- `EnhancedBiometric.ExtractComprehensiveBiometricData` does not model `has_smile`, brightness, contrast, sharpness, the random face angle, `retina_hash` or `captured_at`, for the same reasons. The symmetry score is modelled.
- `EnhancedBiometric.ComprehensiveMeaning` does not model the random face angle, smile detection or brightness, contrast and sharpness. These are reported values with no effect on the result.
- `process_attendance_frame` of `enhanced_biometric_service.py` is not part of this model.
- In the camera system:
  - streaming, `get_frame`, `get_cameras`, camera statistics and alert listings, thumbnails, `int(source)` and the camera-status writes are not modelled;
  - a missing `camera_id` key in `add_camera` is not modelled;
  - threads and locks are not modelled; the `isOpened` wait is left out.
- `BiometricCapture.DetectFaceLandmarksMeaning` does not state the reported brightness, contrast, sharpness or face angle (`FaceData` has no field for them: they are float statistics and an `arctan2` in degrees), nor the retina scan's `retina_hash` (Python's salted string hash) or `captured_at` (the clock). None of them decides whether a face is accepted.
- `Camera.OptimizedCamera.Start` does not model a timed-out start further. The source's initialisation thread may still set `running` after `start` has returned False; the model only says that `start` returns False.
- `Camera.OptimizedCamera.ProcessActivityCamera` does not model the `NameError` after the alert. The source logs an undefined `threat_analysis` after the alert is set and the clip save has failed; the exception is caught and the state is as modelled.
- `Camera.OptimizedCamera.CaptureLoop`: a frame-read failure and an exception share one counter, as in the source.
- `Camera.CameraRegistry.StopCamera`: the source forgets a stopped camera. A camera stopped by its own capture loop stays in `active_cameras` until it is stopped or deleted, and so it does in the model.
- `PerfectBiometric.EncodingMeaning`: the padding of an empty face region (a photo one pixel wide or tall) would never end. The source does not reach it, because the Laplacian on the empty region raises first and the registration reports the error. The model pads with the guarded loop and leaves that error path out.
- `PerfectBiometric.RegistrationMeaning`: the errors caught by the outer `try` are not modelled, only the happy path and the no-profile fallback.
- `BiometricCapture.EyeDistanceSquared` and `ImageData.FirstPairDistanceSquared` state the squared distance, because the square root is not modelled.

## Findings

| source | as written | input that shows it | evidently intended | confidence | as-written member | corrected member |
|---|---|---|---|---|---|---|
| backend/services/perfect_biometric_service.py:253-255 | `while len(iris_patterns) < 50: iris_patterns.extend(iris_patterns[:min(2, ...)])` never ends when no sample was taken | a 6x6 photo with no detections: the fallback face is 4x4, the synthetic eyes are 0x0, so no ring point is inside an eye | pad only a non-empty list; leave an empty one empty | not executed | PerfectBiometric.TinyPhotoRetinaNeverEnds | PerfectBiometric.RetinaDataMeaning |
| backend/services/enhanced_biometric_service.py:146-147 | the same padding loop never ends when the face has no detected eye | any photo with a detected face and no detected eye | pad only a non-empty list | not executed | EnhancedBiometric.FaceWithoutEyesNeverEnds | EnhancedBiometric.SimulatedRetinaMeaning |
