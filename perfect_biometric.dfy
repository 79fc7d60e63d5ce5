/** `perfect_biometric_service.py`: turning uploaded photos into biometric
    profiles that always carry data (falling back to a fixed face box,
    synthetic eyes and padded pixel encodings), and the registration record
    built from the profiles of all angles. */
module PerfectBiometric {
  import opened Common
  import opened BiometricCapture
  import opened ImageData

  /** A decoded photo and what the library calls report on it: the face
      detector's boxes under each parameter pair of `DetectionParams`, the
      eye detector's boxes on the chosen face region under the strict and
      the relaxed parameters, and the DeepFace embedding of the face region
      (`None` when DeepFace is missing or fails). */
  datatype Photo = Photo(gray: Gray, h: nat, w: nat, faceTries: seq<seq<Box>>, eyeTries: seq<seq<Box>>, embedding: Option<seq<real>>)

  /** The face detector's (scale factor, minimum neighbours) pairs, in the
      order they are tried. */
  const DetectionParams: seq<(real, nat)> := [(1.1, 5), (1.05, 3), (1.3, 2), (1.2, 1), (1.4, 1)]

  /** The length of the fallback face encoding and of the iris pattern. */
  const EncodingLength := 265
  const IrisLength := 50

  predicate PhotoWellFormed(p: Photo)
  {
    && IsImage(p.gray, p.h, p.w)
    && |p.faceTries| == |DetectionParams|
    && (forall i, k :: 0 <= i < |p.faceTries| && 0 <= k < |p.faceTries[i]| ==>
          p.faceTries[i][k].width >= 0 && p.faceTries[i][k].height >= 0)
    && |p.eyeTries| == 2
    && AllNonNegative(p.eyeTries[0]) && AllNonNegative(p.eyeTries[1])
  }

  /** The photos the decoder can produce: `cv2.imdecode` yields a pixel
      grid, and the detectors report boxes of non-negative size. */
  type Picture = p: Photo | PhotoWellFormed(p) witness Photo([], 0, 0, [[], [], [], [], []], [[], []], None)

  // ---------------------------------------------------------------------
  // decode_image
  // ---------------------------------------------------------------------

  /** `decode_image`: the payload after the data-URL header is handed to
      `decoder` (base64 and `cv2.imdecode`, `None` when either fails); an
      image with no pixels is rejected as well. */
  function DecodeImage(data: string, decoder: string -> Option<Picture>): (r: Option<Picture>)
    ensures r.Some? ==> r.value.h >= 1 && r.value.w >= 1
  {
    match decoder(StripDataUrl(data))
    case None => None
    case Some(p) => if p.h == 0 || p.w == 0 then None else Some(p)
  }

  /** A data URL decodes exactly as its bare payload does. */
  lemma DecodeIgnoresHeader(header: string, payload: string, decoder: string -> Option<Picture>)
    requires ',' !in header && ',' !in payload
    ensures DecodeImage(header + "," + payload, decoder) == DecodeImage(payload, decoder)
  {
    StripDataUrlOfDataUrl(header, payload, "");
  }

  // ---------------------------------------------------------------------
  // Face box: detection ladder, fallback, largest, clamping
  // ---------------------------------------------------------------------

  /** The boxes of the first parameter pair that finds any face. */
  function FirstHit(tries: seq<seq<Box>>): (faces: seq<Box>)
    ensures |faces| == 0 <==> forall i :: 0 <= i < |tries| ==> |tries[i]| == 0
    ensures |faces| > 0 ==> exists i :: 0 <= i < |tries| && faces == tries[i] && forall j :: 0 <= j < i ==> |tries[j]| == 0
  {
    if |tries| == 0 then []
    else if |tries[0]| > 0 then tries[0]
    else
      var rest := FirstHit(tries[1..]);
      assert forall i :: 1 <= i < |tries| ==> tries[i] == tries[1..][i - 1];
      rest
  }

  /** The centre two thirds of the image, used when no pair finds a face. */
  function FallbackBox(h: nat, w: nat): Box
  {
    Box(w / 6, h / 6, w * 2 / 3, h * 2 / 3)
  }

  /** The face candidates: the first hit, or the fallback box. */
  function Candidates(p: Photo): (faces: seq<Box>)
    requires PhotoWellFormed(p)
    ensures |faces| >= 1
    ensures forall k :: 0 <= k < |faces| ==> faces[k].width >= 0 && faces[k].height >= 0
  {
    var hit := FirstHit(p.faceTries);
    if |hit| == 0 then [FallbackBox(p.h, p.w)] else hit
  }

  /** Moving the box's corner into the image and shortening its sides to
      the image's edges. */
  function Clamp(b: Box, h: nat, w: nat): (c: Box)
    requires h >= 1 && w >= 1
    ensures 0 <= c.x <= w - 1 && 0 <= c.y <= h - 1
    ensures c.x + c.width <= w && c.y + c.height <= h
    ensures c.width <= b.width && c.height <= b.height
    ensures b.width >= 0 && b.height >= 0 ==> Inside(c, h, w)
    ensures 0 <= b.x < w && 0 <= b.y < h && b.x + b.width <= w && b.y + b.height <= h ==> c == b
  {
    var x := Max(0, Min(b.x, w - 1));
    var y := Max(0, Min(b.y, h - 1));
    Box(x, y, Min(b.width, w - x), Min(b.height, h - y))
  }

  /** Clamping a clamped box changes nothing. */
  lemma ClampIdempotent(b: Box, h: nat, w: nat)
    requires h >= 1 && w >= 1
    ensures Clamp(Clamp(b, h, w), h, w) == Clamp(b, h, w)
  {
  }

  /** The face region: the first largest candidate, clamped. */
  function FaceBox(p: Photo): (b: Box)
    requires PhotoWellFormed(p) && p.h >= 1 && p.w >= 1
    ensures Inside(b, p.h, p.w)
  {
    var faces := Candidates(p);
    Clamp(faces[LargestBox(faces, -1)], p.h, p.w)
  }

  /** The face is the clamped first largest box of the first parameter pair
      that finds any; with no hit it is the clamped fallback box. */
  lemma FaceBoxMeaning(p: Photo)
    requires PhotoWellFormed(p) && p.h >= 1 && p.w >= 1
    ensures var hit := FirstHit(p.faceTries);
      && (|hit| == 0 ==> FaceBox(p) == Clamp(FallbackBox(p.h, p.w), p.h, p.w))
      && (|hit| > 0 ==>
            exists k :: 0 <= k < |hit| && FaceBox(p) == Clamp(hit[k], p.h, p.w) &&
              (forall j :: 0 <= j < |hit| ==> Area(hit[j]) <= Area(hit[k])) &&
              (forall j :: 0 <= j < k ==> Area(hit[j]) < Area(hit[k])))
  {
    var hit := FirstHit(p.faceTries);
    if |hit| > 0 {
      var k := LargestBox(hit, -1);
      assert FaceBox(p) == Clamp(hit[k], p.h, p.w);
    }
  }

  // ---------------------------------------------------------------------
  // Eyes
  // ---------------------------------------------------------------------

  /** Two eyes placed on a face of the given size when none is found. */
  function SyntheticEyes(w: int, h: int): seq<Box>
  {
    [Box(w / 4, h / 3, w / 8, h / 12), Box(3 * w / 4, h / 3, w / 8, h / 12)]
  }

  /** At most the first two eyes of the strict detection, or of the relaxed
      one when the strict finds none; the synthetic pair when neither does. */
  function Eyes(p: Photo, face: Box): (eyes: seq<Box>)
    requires PhotoWellFormed(p) && face.width >= 0 && face.height >= 0
    ensures 1 <= |eyes| <= 2 && AllNonNegative(eyes)
  {
    var found := if |p.eyeTries[0]| > 0 then p.eyeTries[0] else p.eyeTries[1];
    var kept := Take(found, 2);
    if |kept| == 0 then SyntheticEyes(face.width, face.height) else kept
  }

  lemma EyesMeaning(p: Photo, face: Box)
    requires PhotoWellFormed(p) && face.width >= 0 && face.height >= 0
    ensures var eyes := Eyes(p, face);
      && (|p.eyeTries[0]| > 0 ==> eyes == p.eyeTries[0][..Min(2, |p.eyeTries[0]|)])
      && (|p.eyeTries[0]| == 0 && |p.eyeTries[1]| > 0 ==> eyes == p.eyeTries[1][..Min(2, |p.eyeTries[1]|)])
      && (|p.eyeTries[0]| == 0 && |p.eyeTries[1]| == 0 ==> eyes == SyntheticEyes(face.width, face.height))
  {
  }

  // ---------------------------------------------------------------------
  // Retina
  // ---------------------------------------------------------------------

  /** `extract_real_retina_data` on the face region: the iris samples of
      the first two eyes padded to 50 by repeating pairs from the front, one
      pupil record per eye, always detected with quality 100. */
  function RetinaData(roi: Gray, rh: nat, rw: nat, eyes: seq<Box>, trig: seq<(real, real)>): Retina
    requires IsImage(roi, rh, rw) && AllNonNegative(eyes)
  {
    var kept := Take(eyes, 2);
    var padded := Repeated(IrisSamples(roi, rh, rw, kept, trig), IrisLength, 2);
    Retina(true, 100, Take(padded, IrisLength), seq(|kept|, k requires 0 <= k < |kept| => PupilOf(kept[k])))
  }

  /** The iris pattern has exactly 50 entries when any eye is sampled, all
      in [0, 1] and starting with the samples; there is one pupil record of
      radius 5 per kept eye. */
  lemma RetinaDataMeaning(roi: Gray, rh: nat, rw: nat, eyes: seq<Box>, trig: seq<(real, real)>)
    requires IsImage(roi, rh, rw) && AllNonNegative(eyes) && UnitCircle(trig)
    ensures var r := RetinaData(roi, rh, rw, eyes, trig);
      var kept := eyes[..Min(2, |eyes|)];
      var samples := IrisSamples(roi, rh, rw, kept, trig);
      && r.detected && r.quality == 100
      && |samples| == 24 * SampledCount(kept, rh, rw) <= 48
      && (SampledCount(kept, rh, rw) > 0 ==> |r.irisPatterns| == IrisLength && r.irisPatterns[..|samples|] == samples)
      && (SampledCount(kept, rh, rw) == 0 ==> r.irisPatterns == [])
      && (forall k :: 0 <= k < |r.irisPatterns| ==> 0.0 <= r.irisPatterns[k] <= 1.0)
      && |r.pupils| == |kept| && (forall k :: 0 <= k < |kept| ==> r.pupils[k].radius == 5.0)
  {
    var kept := eyes[..Min(2, |eyes|)];
    assert Take(eyes, 2) == kept;
    var samples := IrisSamples(roi, rh, rw, kept, trig);
    IrisSamplesCount(roi, rh, rw, kept, trig);
    SampledCountBound(kept, rh, rw);
    RepeatedMeaning(samples, IrisLength, 2);
    var padded := Repeated(samples, IrisLength, 2);
    forall k | 0 <= k < |padded|
      ensures 0.0 <= padded[k] <= 1.0
    {
      var m :| 0 <= m < |samples| && samples[m] == padded[k];
    }
  }

  lemma {:induction false} SampledCountBound(eyes: seq<Box>, rh: nat, rw: nat)
    ensures SampledCount(eyes, rh, rw) <= |eyes|
  {
    if |eyes| > 0 {
      SampledCountBound(eyes[..|eyes| - 1], rh, rw);
    }
  }

  /** `extract_real_retina_data`. */
  method ExtractRealRetinaData(roi: Gray, rh: nat, rw: nat, eyes: seq<Box>, trig: seq<(real, real)>) returns (r: Retina)
    requires IsImage(roi, rh, rw) && AllNonNegative(eyes)
    ensures r == RetinaData(roi, rh, rw, eyes, trig)
  {
    var kept := Take(eyes, 2);
    var samples := SampleIris(roi, rh, rw, kept, trig);
    var padded := PadByRepeating(samples, IrisLength, 2);
    var pupils := PupilData(kept);
    r := Retina(true, 100, Take(padded, IrisLength), pupils);
  }

  // ---------------------------------------------------------------------
  // Face encoding
  // ---------------------------------------------------------------------

  /** The face encoding: the first 265 entries of the DeepFace embedding
      when the face region is not empty and DeepFace gives a non-empty one;
      otherwise the region's pixels scaled by 1/255, cut to 265 or padded
      to 265 by repeating up to ten entries from the front. */
  function Encoding(embedding: Option<seq<real>>, roi: Gray, rh: nat, rw: nat): seq<real>
    requires IsImage(roi, rh, rw)
  {
    var deep := if rh > 0 && rw > 0 && embedding.Some? then Take(embedding.value, EncodingLength) else [];
    if |deep| > 0 then deep
    else
      var flat := Flatten(roi, rh, rw);
      if |flat| >= EncodingLength then flat[..EncodingLength]
      else Take(Repeated(flat, EncodingLength, 10), EncodingLength)
  }

  /** The encoding never exceeds 265 entries. Without a usable embedding
      it starts with the region's pixels in row order and, for a non-empty
      region, has exactly 265 entries, every one of them a region pixel. */
  lemma EncodingMeaning(embedding: Option<seq<real>>, roi: Gray, rh: nat, rw: nat)
    requires IsImage(roi, rh, rw)
    ensures var e := Encoding(embedding, roi, rh, rw);
      var flat := Flatten(roi, rh, rw);
      && |e| <= EncodingLength
      && (rh > 0 && rw > 0 && embedding.Some? && |embedding.value| > 0 ==>
            e == embedding.value[..Min(|embedding.value|, EncodingLength)])
      && (!(rh > 0 && rw > 0 && embedding.Some? && |embedding.value| > 0) ==>
            && Min(|flat|, EncodingLength) <= |e|
            && e[..Min(|flat|, EncodingLength)] == flat[..Min(|flat|, EncodingLength)]
            && (rh > 0 && rw > 0 ==> |e| == EncodingLength)
            && (rh == 0 || rw == 0 ==> e == [])
            && (forall k :: 0 <= k < |e| ==> e[k] in flat))
  {
    var flat := Flatten(roi, rh, rw);
    RepeatedMeaning(flat, EncodingLength, 10);
    if rh > 0 && rw > 0 {
      assert |flat| == rh * rw >= 1 by {
        MulPositive(rh, rw);
      }
    }
  }

  lemma MulPositive(a: nat, b: nat)
    requires a >= 1 && b >= 1
    ensures a * b >= 1
  {
  }

  // ---------------------------------------------------------------------
  // extract_real_biometric_data
  // ---------------------------------------------------------------------

  /** The stored per-angle profile: face box, eyes, face area, quality
      score, squared eye distance, symmetry score (`None` for NaN), retina
      scan and face encoding. */
  datatype Profile = Profile(box: Box, eyes: seq<Box>, area: int, quality: int, eyeDistanceSquared: int,
                             symmetry: Option<real>, retina: Retina, encoding: seq<real>)

  /** The profile of a decodable photo. */
  function RealProfile(p: Photo, trig: seq<(real, real)>): Profile
    requires PhotoWellFormed(p) && p.h >= 1 && p.w >= 1
  {
    var face := FaceBox(p);
    var roi := Crop(p.gray, p.h, p.w, face);
    var eyes := Eyes(p, face);
    Profile(face, eyes, Area(face), 100, FirstPairDistanceSquared(eyes), MirrorScore(roi, face.height, face.width),
            RetinaData(roi, face.height, face.width, eyes, trig),
            Encoding(p.embedding, roi, face.height, face.width))
  }

  /** Values the source draws at random for a synthetic profile. */
  datatype Draws = Draws(iris: seq<real>, encoding: seq<real>)

  predicate DrawsWellFormed(d: Draws)
  {
    |d.iris| == IrisLength && |d.encoding| == EncodingLength
  }

  /** `generate_synthetic_biometric_data`: fixed geometry, quality 85 and
      random iris pattern and encoding. */
  function SyntheticProfile(d: Draws): Profile
  {
    Profile(Box(33, 33, 133, 133), [Box(50, 40, 25, 15), Box(125, 40, 25, 15)], 17689, 85, 75 * 75, Some(92.5),
            Retina(true, 85, d.iris, [PupilRecord(Point(12, 7), 5.0, 50, 40), PupilRecord(Point(12, 7), 5.0, 125, 40)]),
            d.encoding)
  }

  /** The profile `extract_real_biometric_data` returns: synthetic for a
      missing or empty image. */
  function ProfileOf(image: Option<Picture>, trig: seq<(real, real)>, d: Draws): Profile
  {
    if image.None? || image.value.h == 0 || image.value.w == 0 then SyntheticProfile(d)
    else RealProfile(image.value, trig)
  }

  /** Every profile has a retina scan detected, one or two eyes and a face
      encoding of at most 265 entries; a real one has quality 100 and its
      face box inside the image. */
  lemma ProfileMeaning(image: Option<Picture>, trig: seq<(real, real)>, d: Draws)
    requires DrawsWellFormed(d)
    ensures var prof := ProfileOf(image, trig, d);
      && prof.retina.detected
      && (prof.symmetry.Some? ==> 0.0 <= prof.symmetry.value <= 100.0)
      && 1 <= |prof.eyes| <= 2
      && |prof.encoding| <= EncodingLength
      && (image.None? || image.value.h == 0 || image.value.w == 0 ==> prof.quality == 85)
      && (image.Some? && image.value.h >= 1 && image.value.w >= 1 ==>
            prof.quality == 100 && Inside(prof.box, image.value.h, image.value.w) &&
            prof.area == prof.box.width * prof.box.height)
  {
    if image.Some? && image.value.h >= 1 && image.value.w >= 1 {
      var p := image.value;
      var face := FaceBox(p);
      var roi := Crop(p.gray, p.h, p.w, face);
      EncodingMeaning(p.embedding, roi, face.height, face.width);
      MirrorScoreMeaning(roi, face.height, face.width);
    }
  }

  /** The detection ladder: the parameter pairs in order until one finds a
      face, then the fallback box if none did. */
  method DetectFaces(p: Photo) returns (faces: seq<Box>)
    requires PhotoWellFormed(p)
    ensures faces == Candidates(p)
  {
    faces := [];
    var i := 0;
    while i < |DetectionParams|
      invariant 0 <= i <= |DetectionParams|
      invariant FirstHit(p.faceTries) == FirstHit(p.faceTries[i..])
      invariant faces == []
    {
      faces := p.faceTries[i];
      if |faces| > 0 {
        break;
      }
      assert p.faceTries[i..][1..] == p.faceTries[i + 1..];
      i := i + 1;
    }
    assert faces == FirstHit(p.faceTries);
    if |faces| == 0 {
      faces := [FallbackBox(p.h, p.w)];
    }
  }

  /** The face encoding step, with its padding loop. */
  method EncodeFace(embedding: Option<seq<real>>, roi: Gray, rh: nat, rw: nat) returns (encoding: seq<real>)
    requires IsImage(roi, rh, rw)
    ensures encoding == Encoding(embedding, roi, rh, rw)
  {
    encoding := [];
    if rh > 0 && rw > 0 && embedding.Some? {
      encoding := Take(embedding.value, EncodingLength);
    }
    if |encoding| == 0 {
      var flat := Flatten(roi, rh, rw);
      if |flat| >= EncodingLength {
        encoding := flat[..EncodingLength];
      } else {
        encoding := PadByRepeating(flat, EncodingLength, 10);
        encoding := Take(encoding, EncodingLength);
      }
    }
  }

  /** `extract_real_biometric_data`. */
  method ExtractRealBiometricData(image: Option<Picture>, trig: seq<(real, real)>, d: Draws) returns (prof: Profile)
    ensures prof == ProfileOf(image, trig, d)
  {
    if image.None? || image.value.h == 0 || image.value.w == 0 {
      return SyntheticProfile(d);
    }
    var p := image.value;
    var faces := DetectFaces(p);
    var face := Clamp(faces[LargestBox(faces, -1)], p.h, p.w);
    var roi := Crop(p.gray, p.h, p.w, face);
    var found := p.eyeTries[0];
    if |found| == 0 {
      found := p.eyeTries[1];
    }
    var eyes := Take(found, 2);
    if |eyes| == 0 {
      eyes := SyntheticEyes(face.width, face.height);
    }
    var retina := ExtractRealRetinaData(roi, face.height, face.width, eyes, trig);
    var encoding := EncodeFace(p.embedding, roi, face.height, face.width);
    var symmetry := MirrorScore(roi, face.height, face.width);
    prof := Profile(face, eyes, Area(face), 100, FirstPairDistanceSquared(eyes), symmetry, retina, encoding);
  }

  /** A 6 by 6 photo in which no detector finds anything, as happens to
      any photo far below the detectors' minimum sizes. */
  const TinyPhoto: Picture := Photo(seq(6, _ => seq(6, _ => 0)), 6, 6, [[], [], [], [], []], [[], []], None)

  /** On `TinyPhoto` the face falls back to a 4 by 4 box, the synthetic
      eyes have no width or height, no iris point is sampled, and the
      padding loop of `extract_real_retina_data` as written never ends,
      whatever number of rounds is allowed; the model's padding yields an
      empty iris pattern instead. */
  lemma TinyPhotoRetinaNeverEnds(trig: seq<(real, real)>, fuel: nat)
    requires UnitCircle(trig)
    ensures var face := FaceBox(TinyPhoto);
      var eyes := Eyes(TinyPhoto, face);
      var roi := Crop(TinyPhoto.gray, 6, 6, face);
      && face == Box(1, 1, 4, 4)
      && eyes == [Box(1, 1, 0, 0), Box(3, 1, 0, 0)]
      && IrisSamples(roi, 4, 4, eyes, trig) == []
      && PadLoopAsWritten(IrisSamples(roi, 4, 4, eyes, trig), IrisLength, 2, fuel).None?
      && RetinaData(roi, 4, 4, eyes, trig).irisPatterns == []
  {
    var face := FaceBox(TinyPhoto);
    assert FirstHit(TinyPhoto.faceTries) == [];
    assert face == Box(1, 1, 4, 4);
    var eyes := Eyes(TinyPhoto, face);
    assert eyes == [Box(1, 1, 0, 0), Box(3, 1, 0, 0)];
    var roi := Crop(TinyPhoto.gray, 6, 6, face);
    assert eyes[..1] == [Box(1, 1, 0, 0)];
    assert SampledCount(eyes, 4, 4) == 0;
    IrisSamplesCount(roi, 4, 4, eyes, trig);
    PadLoopNeverEnds(IrisLength, 2, fuel);
    RetinaDataMeaning(roi, 4, 4, eyes, trig);
  }

  // ---------------------------------------------------------------------
  // register_perfect_biometric
  // ---------------------------------------------------------------------

  /** One entry of the uploaded `{angle: image}` dictionary. */
  datatype Upload = Upload(angle: string, data: string)

  /** The angles of a dictionary are distinct. */
  predicate DistinctAngles(uploads: seq<Upload>)
  {
    forall i, j :: 0 <= i < j < |uploads| ==> uploads[i].angle != uploads[j].angle
  }

  /** A processed angle: its name, its decoded photo (none for the
      synthetic entry) and the stored image (the payload without the
      data-URL header). */
  datatype Entry = Entry(angle: string, photo: Option<Picture>, image: string)

  /** The entry of one upload: none when its image does not decode. */
  function NewEntry(u: Upload, decoder: string -> Option<Picture>): (es: seq<Entry>)
    ensures |es| <= 1
  {
    var image := DecodeImage(u.data, decoder);
    if image.None? then [] else [Entry(u.angle, image, StripDataUrl(u.data))]
  }

  /** The angles whose image decodes, in dictionary order, with their
      photos. */
  function Processed(uploads: seq<Upload>, decoder: string -> Option<Picture>): (es: seq<Entry>)
    ensures |es| <= |uploads|
  {
    if |uploads| == 0 then []
    else
      var n := |uploads| - 1;
      Processed(uploads[..n], decoder) + NewEntry(uploads[n], decoder)
  }

  lemma ProcessedStep(uploads: seq<Upload>, decoder: string -> Option<Picture>, i: nat)
    requires i < |uploads|
    ensures Processed(uploads[..i + 1], decoder) == Processed(uploads[..i], decoder) + NewEntry(uploads[i], decoder)
  {
    assert uploads[..i + 1][..i] == uploads[..i];
  }

  /** The synthetic entry stored when no angle could be processed. */
  const SyntheticEntry := Entry("Center", None, "")

  /** The profile of each entry, in order. */
  function Profiles(es: seq<Entry>, trig: seq<(real, real)>, d: Draws): (ps: seq<Profile>)
    ensures |ps| == |es|
  {
    if |es| == 0 then [] else Profiles(es[..|es| - 1], trig, d) + [ProfileOf(es[|es| - 1].photo, trig, d)]
  }

  lemma {:induction false} ProfilesAt(es: seq<Entry>, trig: seq<(real, real)>, d: Draws, k: nat)
    requires k < |es|
    ensures Profiles(es, trig, d)[k] == ProfileOf(es[k].photo, trig, d)
  {
    var n := |es| - 1;
    if k < n {
      assert es[..n][k] == es[k];
      ProfilesAt(es[..n], trig, d, k);
    }
  }

  /** The registration record and the response of `register_perfect_biometric`. */
  datatype Registration = Registration(
    profiles: seq<(string, Profile)>,
    faceImages: seq<(string, string)>,
    angles: seq<string>,
    qualities: seq<int>,
    totalAngles: nat,
    received: nat,
    processed: nat,
    retinaScansDetected: nat,
    faceImage: string,
    success: bool,
    totalFeatures: nat)

  function Angles(es: seq<Entry>): (r: seq<string>)
    ensures |r| == |es| && forall k :: 0 <= k < |es| ==> r[k] == es[k].angle
  {
    if |es| == 0 then [] else Angles(es[..|es| - 1]) + [es[|es| - 1].angle]
  }

  function Qualities(ps: seq<Profile>): (r: seq<int>)
    ensures |r| == |ps| && forall k :: 0 <= k < |ps| ==> r[k] == ps[k].quality
  {
    if |ps| == 0 then [] else Qualities(ps[..|ps| - 1]) + [ps[|ps| - 1].quality]
  }

  function ProfilePairs(es: seq<Entry>, ps: seq<Profile>): (r: seq<(string, Profile)>)
    requires |ps| == |es|
    ensures |r| == |es| && forall k :: 0 <= k < |es| ==> r[k] == (es[k].angle, ps[k])
  {
    if |es| == 0 then [] else ProfilePairs(es[..|es| - 1], ps[..|ps| - 1]) + [(es[|es| - 1].angle, ps[|ps| - 1])]
  }

  function ImagePairs(es: seq<Entry>): (r: seq<(string, string)>)
    ensures |r| == |es| && forall k :: 0 <= k < |es| ==> r[k] == (es[k].angle, es[k].image)
  {
    if |es| == 0 then [] else ImagePairs(es[..|es| - 1]) + [(es[|es| - 1].angle, es[|es| - 1].image)]
  }

  /** `sum(len(p["face_encoding"]) for p in profiles)`. */
  function TotalFeatures(ps: seq<Profile>): nat
  {
    if |ps| == 0 then 0 else TotalFeatures(ps[..|ps| - 1]) + |ps[|ps| - 1].encoding|
  }

  /** `retina_scans_detected`: the number of stored profiles whose retina
      scan reports a detection. */
  function RetinaScansDetected(profiles: seq<(string, Profile)>): (n: nat)
    ensures n <= |profiles|
  {
    if |profiles| == 0 then 0
    else RetinaScansDetected(profiles[..|profiles| - 1]) + (if profiles[|profiles| - 1].1.retina.detected then 1 else 0)
  }

  /** When every stored profile reports a detected retina, all are counted. */
  lemma {:induction false} AllRetinasDetected(profiles: seq<(string, Profile)>)
    requires forall k :: 0 <= k < |profiles| ==> profiles[k].1.retina.detected
    ensures RetinaScansDetected(profiles) == |profiles|
  {
    if |profiles| > 0 {
      AllRetinasDetected(profiles[..|profiles| - 1]);
    }
  }

  /** Every profile carries at most 265 encoding values, so the feature
      count is at most 265 per angle. */
  lemma {:induction false} TotalFeaturesBound(ps: seq<Profile>)
    requires forall k :: 0 <= k < |ps| ==> |ps[k].encoding| <= EncodingLength
    ensures TotalFeatures(ps) <= EncodingLength * |ps|
  {
    if |ps| > 0 {
      TotalFeaturesBound(ps[..|ps| - 1]);
    }
  }

  /** `dict.get(key)` on a dictionary kept as its items in order. */
  function Lookup(items: seq<(string, string)>, key: string): Option<string>
  {
    if |items| == 0 then None
    else if items[|items| - 1].0 == key then Some(items[|items| - 1].1)
    else Lookup(items[..|items| - 1], key)
  }

  /** The main face image: `Center`, else `Frontal`, else the first image,
      else the empty string. */
  function MainImage(images: seq<(string, string)>): string
  {
    match Lookup(images, "Center")
    case Some(v) => v
    case None =>
      match Lookup(images, "Frontal")
      case Some(v) => v
      case None => if |images| > 0 then images[0].1 else ""
  }

  const JpegHeader := "data:image/jpeg;base64"

  /** The stored `face_image`: a data URL unless it is empty or already
      starts with `data:`. */
  function StoredFaceImage(main: string): string
  {
    if main != "" && !StartsWith(main, "data:") then JpegHeader + "," + main else main
  }

  /** The stored face image decodes exactly as the main image does: adding
      the header is undone by `decode_image`. */
  lemma StoredFaceImageDecodes(main: string, decoder: string -> Option<Picture>)
    requires ',' !in main
    ensures StripDataUrl(StoredFaceImage(main)) == main
    ensures DecodeImage(StoredFaceImage(main), decoder) == DecodeImage(main, decoder)
    ensures main == "" || StartsWith(StoredFaceImage(main), "data:")
  {
    if main != "" && !StartsWith(main, "data:") {
      assert ',' !in JpegHeader;
      StripDataUrlOfDataUrl(JpegHeader, main, "");
      assert (JpegHeader + "," + main)[..5] == "data:";
    }
  }

  /** The processed entries, or the single synthetic one when none is. */
  function Stored(uploads: seq<Upload>, decoder: string -> Option<Picture>): (es: seq<Entry>)
    ensures |es| >= 1
  {
    var processed := Processed(uploads, decoder);
    if |processed| == 0 then [SyntheticEntry] else processed
  }

  /** The whole registration for a dictionary of uploads. */
  function RegistrationOf(uploads: seq<Upload>, decoder: string -> Option<Picture>, trig: seq<(real, real)>, d: Draws): Registration
  {
    var es := Stored(uploads, decoder);
    var ps := Profiles(es, trig, d);
    var images := ImagePairs(es);
    var profiles := ProfilePairs(es, ps);
    Registration(profiles, images, Angles(es), Qualities(ps), |es|, |uploads|, |es|, RetinaScansDetected(profiles),
                 StoredFaceImage(MainImage(images)), true, TotalFeatures(ps))
  }

  /** What the registration promises: the four per-angle lists run in step
      and in dictionary order over the decodable angles (a single synthetic
      `Center` when there is none), `total_angles` counts them, the
      response reports success and the stored face image decodes as the
      main image. */
  lemma RegistrationMeaning(uploads: seq<Upload>, decoder: string -> Option<Picture>, trig: seq<(real, real)>, d: Draws)
    ensures var r := RegistrationOf(uploads, decoder, trig, d);
      && |r.angles| == |r.qualities| == |r.profiles| == |r.faceImages| == r.totalAngles == r.processed >= 1
      && r.received == |uploads| && r.success
      && (forall k :: 0 <= k < r.totalAngles ==>
            r.profiles[k].0 == r.angles[k] && r.faceImages[k].0 == r.angles[k] &&
            r.qualities[k] == r.profiles[k].1.quality)
      && (|Processed(uploads, decoder)| == 0 ==> r.angles == ["Center"] && r.faceImages == [("Center", "")])
      && (|Processed(uploads, decoder)| > 0 ==> r.angles == Angles(Processed(uploads, decoder)))
      && StripDataUrl(r.faceImage) == MainImage(r.faceImages)
  {
    var es := Stored(uploads, decoder);
    ImagesHaveNoComma(uploads, decoder);
    assert CommaFree(es);
    MainImageNoComma(ImagePairs(es));
    StoredFaceImageDecodes(MainImage(ImagePairs(es)), decoder);
  }

  /** Every stored profile has its retina detected, so all are counted. */
  lemma RegistrationRetinas(uploads: seq<Upload>, decoder: string -> Option<Picture>, trig: seq<(real, real)>, d: Draws)
    ensures var r := RegistrationOf(uploads, decoder, trig, d);
      r.retinaScansDetected == |r.profiles| == |Stored(uploads, decoder)|
  {
    var profiles := RegistrationOf(uploads, decoder, trig, d).profiles;
    forall k | 0 <= k < |profiles|
      ensures profiles[k].1.retina.detected
    {
      RegistrationProfileAt(uploads, decoder, trig, d, k);
    }
    AllRetinasDetected(profiles);
  }

  /** Each stored angle carries the profile `extract_real_biometric_data`
      gives for its photo; with no decodable angle, that is the synthetic
      profile of quality 85. */
  lemma RegistrationProfileAt(uploads: seq<Upload>, decoder: string -> Option<Picture>, trig: seq<(real, real)>, d: Draws, k: nat)
    requires k < |Stored(uploads, decoder)|
    ensures var es := Stored(uploads, decoder);
      RegistrationOf(uploads, decoder, trig, d).profiles[k] == (es[k].angle, ProfileOf(es[k].photo, trig, d))
    ensures |Processed(uploads, decoder)| == 0 ==> RegistrationOf(uploads, decoder, trig, d).profiles == [("Center", SyntheticProfile(d))]
  {
    ProfilesAt(Stored(uploads, decoder), trig, d, k);
  }

  /** The stored feature count is at most 265 per angle. */
  lemma RegistrationFeatures(uploads: seq<Upload>, decoder: string -> Option<Picture>, trig: seq<(real, real)>, d: Draws)
    requires DrawsWellFormed(d)
    ensures var r := RegistrationOf(uploads, decoder, trig, d);
      r.totalFeatures <= EncodingLength * r.totalAngles
  {
    var es := Stored(uploads, decoder);
    var ps := Profiles(es, trig, d);
    forall k | 0 <= k < |ps|
      ensures |ps[k].encoding| <= EncodingLength
    {
      ProfilesAt(es, trig, d, k);
      ProfileMeaning(es[k].photo, trig, d);
    }
    TotalFeaturesBound(ps);
  }

  /** No stored image holds a comma. */
  predicate CommaFree(es: seq<Entry>)
  {
    forall k :: 0 <= k < |es| ==> ',' !in es[k].image
  }

  lemma {:induction false} ImagesHaveNoComma(uploads: seq<Upload>, decoder: string -> Option<Picture>)
    ensures CommaFree(Processed(uploads, decoder))
  {
    if |uploads| > 0 {
      var n := |uploads| - 1;
      ImagesHaveNoComma(uploads[..n], decoder);
      var prev := Processed(uploads[..n], decoder);
      var es := Processed(uploads, decoder);
      assert es == prev + NewEntry(uploads[n], decoder);
      var image := DecodeImage(uploads[n].data, decoder);
      if image.Some? {
        var e := Entry(uploads[n].angle, image, StripDataUrl(uploads[n].data));
        assert ',' !in e.image;
        assert es == prev + [e];
      } else {
        assert es == prev;
      }
    }
  }

  lemma MainImageNoComma(images: seq<(string, string)>)
    requires forall k :: 0 <= k < |images| ==> ',' !in images[k].1
    ensures ',' !in MainImage(images)
  {
    LookupNoComma(images, "Center");
    LookupNoComma(images, "Frontal");
  }

  lemma {:induction false} LookupNoComma(images: seq<(string, string)>, key: string)
    requires forall k :: 0 <= k < |images| ==> ',' !in images[k].1
    ensures Lookup(images, key).Some? ==> ',' !in Lookup(images, key).value
  {
    if |images| > 0 && images[|images| - 1].0 != key {
      LookupNoComma(images[..|images| - 1], key);
    }
  }

  /** Appending an entry appends its angle. */
  lemma AnglesAppend(es: seq<Entry>, e: Entry)
    ensures Angles(es + [e]) == Angles(es) + [e.angle]
  {
    assert (es + [e])[..|es|] == es;
  }

  /** A processed angle comes from an upload whose image decodes. */
  lemma {:induction false} ProcessedAngleSound(uploads: seq<Upload>, decoder: string -> Option<Picture>, a: string)
    ensures a in Angles(Processed(uploads, decoder)) ==>
      exists k :: 0 <= k < |uploads| && uploads[k].angle == a && DecodeImage(uploads[k].data, decoder).Some?
  {
    if |uploads| > 0 {
      var n := |uploads| - 1;
      var prev := Processed(uploads[..n], decoder);
      var es := Processed(uploads, decoder);
      ProcessedAngleSound(uploads[..n], decoder, a);
      if a in Angles(es) {
        var image := DecodeImage(uploads[n].data, decoder);
        if image.Some? && a == uploads[n].angle {
        } else {
          if image.Some? {
            AnglesAppend(prev, Entry(uploads[n].angle, image, StripDataUrl(uploads[n].data)));
          }
          assert a in Angles(prev);
          var j :| 0 <= j < n && uploads[..n][j].angle == a && DecodeImage(uploads[..n][j].data, decoder).Some?;
          assert uploads[j] == uploads[..n][j];
        }
      }
    }
  }

  /** An upload whose image decodes has its angle processed. */
  lemma {:induction false} ProcessedAngleComplete(uploads: seq<Upload>, decoder: string -> Option<Picture>, k: nat)
    requires k < |uploads| && DecodeImage(uploads[k].data, decoder).Some?
    ensures uploads[k].angle in Angles(Processed(uploads, decoder))
  {
    var n := |uploads| - 1;
    var prev := Processed(uploads[..n], decoder);
    var image := DecodeImage(uploads[n].data, decoder);
    assert Processed(uploads, decoder) == prev + NewEntry(uploads[n], decoder);
    if k < n {
      assert uploads[..n][k] == uploads[k];
      ProcessedAngleComplete(uploads[..n], decoder, k);
    }
    if image.Some? {
      AnglesAppend(prev, Entry(uploads[n].angle, image, StripDataUrl(uploads[n].data)));
    } else {
      assert Processed(uploads, decoder) == prev;
    }
  }

  /** No angle is stored twice. */
  predicate DistinctEntries(es: seq<Entry>)
  {
    forall i, j :: 0 <= i < j < |es| ==> es[i].angle != es[j].angle
  }

  /** With distinct upload angles, every processed angle is stored once. */
  lemma {:induction false} ProcessedDistinct(uploads: seq<Upload>, decoder: string -> Option<Picture>)
    requires DistinctAngles(uploads)
    ensures DistinctEntries(Processed(uploads, decoder))
  {
    if |uploads| > 0 {
      var n := |uploads| - 1;
      assert DistinctAngles(uploads[..n]);
      ProcessedDistinct(uploads[..n], decoder);
      ProcessedAngleSound(uploads[..n], decoder, uploads[n].angle);
      var prev := Processed(uploads[..n], decoder);
      var es := Processed(uploads, decoder);
      assert es == prev + NewEntry(uploads[n], decoder);
      assert forall j :: 0 <= j < n ==> uploads[..n][j].angle != uploads[n].angle;
      assert uploads[n].angle !in Angles(prev);
      forall i, j | 0 <= i < j < |es|
        ensures es[i].angle != es[j].angle
      {
        if j >= |prev| {
          assert es[i] == prev[i];
          assert Angles(prev)[i] == es[i].angle;
        }
      }
    }
  }

  /** The registration lists hold exactly what the entries `es` and their
      profiles `ps` give. */
  predicate Accumulated(es: seq<Entry>, ps: seq<Profile>, profiles: seq<(string, Profile)>,
                        faceImages: seq<(string, string)>, angles: seq<string>, qualities: seq<int>, features: nat)
  {
    && |ps| == |es|
    && profiles == ProfilePairs(es, ps) && faceImages == ImagePairs(es) && angles == Angles(es)
    && qualities == Qualities(ps) && features == TotalFeatures(ps)
  }

  lemma AccumulateStep(es: seq<Entry>, ps: seq<Profile>, e: Entry, p: Profile, profiles: seq<(string, Profile)>,
                       faceImages: seq<(string, string)>, angles: seq<string>, qualities: seq<int>, features: nat)
    requires Accumulated(es, ps, profiles, faceImages, angles, qualities, features)
    ensures Accumulated(es + [e], ps + [p], profiles + [(e.angle, p)], faceImages + [(e.angle, e.image)],
                        angles + [e.angle], qualities + [p.quality], features + |p.encoding|)
  {
    assert (es + [e])[..|es|] == es;
    assert (ps + [p])[..|ps|] == ps;
  }

  lemma ProfilesAppend(es: seq<Entry>, e: Entry, trig: seq<(real, real)>, d: Draws)
    ensures Profiles(es + [e], trig, d) == Profiles(es, trig, d) + [ProfileOf(e.photo, trig, d)]
  {
    assert (es + [e])[..|es|] == es;
  }

  /** The lists accumulated over the uploads `us`, with `ps` the profiles
      of their processed entries. */
  predicate Collected(us: seq<Upload>, decoder: string -> Option<Picture>, trig: seq<(real, real)>, d: Draws,
                      ps: seq<Profile>, profiles: seq<(string, Profile)>, faceImages: seq<(string, string)>,
                      angles: seq<string>, qualities: seq<int>, features: nat)
  {
    && ProfilesMatch(Processed(us, decoder), trig, d, ps)
    && Accumulated(Processed(us, decoder), ps, profiles, faceImages, angles, qualities, features)
  }

  /** `ps` holds the profile of each entry, index by index. */
  predicate ProfilesMatch(es: seq<Entry>, trig: seq<(real, real)>, d: Draws, ps: seq<Profile>)
  {
    |ps| == |es| && forall k :: 0 <= k < |es| ==> ps[k] == ProfileOf(es[k].photo, trig, d)
  }

  lemma ProfilesMatchAll(es: seq<Entry>, trig: seq<(real, real)>, d: Draws, ps: seq<Profile>)
    requires ProfilesMatch(es, trig, d, ps)
    ensures ps == Profiles(es, trig, d)
  {
    forall k | 0 <= k < |es| ensures ps[k] == Profiles(es, trig, d)[k] {
      ProfilesAt(es, trig, d, k);
    }
  }

  /** The loop of `register_perfect_biometric` over the uploaded angles:
      the per-angle lists of every angle whose image decodes. */
  method CollectProfiles(uploads: seq<Upload>, decoder: string -> Option<Picture>, trig: seq<(real, real)>, d: Draws)
    returns (profiles: seq<(string, Profile)>, faceImages: seq<(string, string)>, angles: seq<string>, qualities: seq<int>, features: nat)
    ensures var es := Processed(uploads, decoder);
      Accumulated(es, Profiles(es, trig, d), profiles, faceImages, angles, qualities, features)
  {
    profiles, faceImages, angles, qualities, features := [], [], [], [], 0;
    ghost var ps: seq<Profile> := [];
    for i := 0 to |uploads|
      invariant Collected(uploads[..i], decoder, trig, d, ps, profiles, faceImages, angles, qualities, features)
    {
      ps, profiles, faceImages, angles, qualities, features :=
        CollectOne(uploads, i, decoder, trig, d, ps, profiles, faceImages, angles, qualities, features);
    }
    assert uploads[..|uploads|] == uploads;
    ProfilesMatchAll(Processed(uploads, decoder), trig, d, ps);
  }

  /** One turn of the loop: an upload whose image decodes adds its
      profile and its lists; any other changes nothing. */
  method CollectOne(uploads: seq<Upload>, i: nat, decoder: string -> Option<Picture>, trig: seq<(real, real)>, d: Draws,
                    ghost ps: seq<Profile>, profiles: seq<(string, Profile)>, faceImages: seq<(string, string)>,
                    angles: seq<string>, qualities: seq<int>, features: nat)
    returns (ghost ps': seq<Profile>, profiles': seq<(string, Profile)>, faceImages': seq<(string, string)>,
             angles': seq<string>, qualities': seq<int>, features': nat)
    requires i < |uploads|
    requires Collected(uploads[..i], decoder, trig, d, ps, profiles, faceImages, angles, qualities, features)
    ensures Collected(uploads[..i + 1], decoder, trig, d, ps', profiles', faceImages', angles', qualities', features')
  {
    var u := uploads[i];
    var image := DecodeImage(u.data, decoder);
    if image.Some? {
      var prof := ExtractRealBiometricData(image, trig, d);
      CollectStep(uploads, i, decoder, trig, d, ps, prof, profiles, faceImages, angles, qualities, features);
      ps' := ps + [prof];
      profiles' := profiles + [(u.angle, prof)];
      faceImages' := faceImages + [(u.angle, StripDataUrl(u.data))];
      angles' := angles + [u.angle];
      qualities' := qualities + [prof.quality];
      features' := features + |prof.encoding|;
    } else {
      SkipStep(uploads, i, decoder);
      ps', profiles', faceImages', angles', qualities', features' := ps, profiles, faceImages, angles, qualities, features;
    }
  }

  /** An upload whose image does not decode adds no entry. */
  lemma SkipStep(uploads: seq<Upload>, i: nat, decoder: string -> Option<Picture>)
    requires i < |uploads| && DecodeImage(uploads[i].data, decoder).None?
    ensures Processed(uploads[..i + 1], decoder) == Processed(uploads[..i], decoder)
  {
    ProcessedStep(uploads, decoder, i);
    assert NewEntry(uploads[i], decoder) == [];
    assert Processed(uploads[..i], decoder) + [] == Processed(uploads[..i], decoder);
  }

  /** An upload whose image decodes adds its entry, its profile and its
      lists. */
  lemma CollectStep(uploads: seq<Upload>, i: nat, decoder: string -> Option<Picture>, trig: seq<(real, real)>, d: Draws,
                    ps: seq<Profile>, prof: Profile, profiles: seq<(string, Profile)>,
                    faceImages: seq<(string, string)>, angles: seq<string>, qualities: seq<int>, features: nat)
    requires i < |uploads| && DecodeImage(uploads[i].data, decoder).Some?
    requires prof == ProfileOf(DecodeImage(uploads[i].data, decoder), trig, d)
    requires Collected(uploads[..i], decoder, trig, d, ps, profiles, faceImages, angles, qualities, features)
    ensures Collected(uploads[..i + 1], decoder, trig, d, ps + [prof],
                      profiles + [(uploads[i].angle, prof)], faceImages + [(uploads[i].angle, StripDataUrl(uploads[i].data))],
                      angles + [uploads[i].angle], qualities + [prof.quality], features + |prof.encoding|)
  {
    var u := uploads[i];
    var es := Processed(uploads[..i], decoder);
    ProcessedStep(uploads, decoder, i);
    var e := Entry(u.angle, DecodeImage(u.data, decoder), StripDataUrl(u.data));
    assert NewEntry(u, decoder) == [e];
    assert Processed(uploads[..i + 1], decoder) == es + [e];
    AccumulateStep(es, ps, e, prof, profiles, faceImages, angles, qualities, features);
  }

  /** `register_perfect_biometric`. The database write is left out: the
      response does not depend on its outcome. */
  method RegisterPerfectBiometric(uploads: seq<Upload>, decoder: string -> Option<Picture>, trig: seq<(real, real)>, d: Draws)
    returns (reg: Registration)
    ensures reg == RegistrationOf(uploads, decoder, trig, d)
  {
    var profiles, faceImages, angles, qualities, features := CollectProfiles(uploads, decoder, trig, d);
    if |profiles| == 0 {
      var synthetic := SyntheticProfile(d);
      SyntheticStored(uploads, decoder, trig, d);
      profiles := [("Center", synthetic)];
      faceImages := [("Center", "")];
      angles := ["Center"];
      qualities := [85];
      features := |synthetic.encoding|;
    }
    RegistrationFromLists(uploads, decoder, trig, d, profiles, faceImages, angles, qualities, features);
    var main := MainImage(faceImages);
    reg := Registration(profiles, faceImages, angles, qualities, |angles|, |uploads|, |profiles|, RetinaScansDetected(profiles),
                        StoredFaceImage(main), true, features);
  }

  /** With nothing processed, the stored lists are those of the synthetic
      entry. */
  lemma SyntheticStored(uploads: seq<Upload>, decoder: string -> Option<Picture>, trig: seq<(real, real)>, d: Draws)
    requires |Processed(uploads, decoder)| == 0
    ensures var es := Stored(uploads, decoder);
      Accumulated(es, Profiles(es, trig, d), [("Center", SyntheticProfile(d))], [("Center", "")], ["Center"], [85],
                  |SyntheticProfile(d).encoding|)
  {
    AccumulateStep([], [], SyntheticEntry, SyntheticProfile(d), [], [], [], [], 0);
    ProfilesAppend([], SyntheticEntry, trig, d);
  }

  /** The registration built from the lists accumulated over the stored
      entries. */
  lemma RegistrationFromLists(uploads: seq<Upload>, decoder: string -> Option<Picture>, trig: seq<(real, real)>, d: Draws,
                              profiles: seq<(string, Profile)>, faceImages: seq<(string, string)>, angles: seq<string>,
                              qualities: seq<int>, features: nat)
    requires var es := Stored(uploads, decoder);
      Accumulated(es, Profiles(es, trig, d), profiles, faceImages, angles, qualities, features)
    ensures RegistrationOf(uploads, decoder, trig, d) ==
      Registration(profiles, faceImages, angles, qualities, |angles|, |uploads|, |profiles|, RetinaScansDetected(profiles),
                   StoredFaceImage(MainImage(faceImages)), true, features)
  {
  }
}
