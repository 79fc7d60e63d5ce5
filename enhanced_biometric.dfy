/** `enhanced_biometric_service.py`: the comprehensive profile of a photo
    (only when a face is found), the simulated retina scan from eye pixels,
    and the employee document built from the profiles of all angles. */
module EnhancedBiometric {
  import opened Common
  import opened BiometricCapture
  import opened ImageData
  import PerfectBiometric

  type Profile = PerfectBiometric.Profile
  type Upload = PerfectBiometric.Upload

  /** A decoded photo and what the library calls report on it: the face
      detector's boxes, the eye detector's boxes on the chosen face region,
      and the DeepFace embedding of the face (`None` when DeepFace is
      missing, fails or returns nothing). */
  datatype Shot = Shot(gray: Gray, h: nat, w: nat, faces: seq<Box>, eyes: seq<Box>, embedding: Option<seq<real>>)

  /** The detector reports faces inside the image and eyes of non-negative
      size. */
  predicate ShotWellFormed(s: Shot)
  {
    && IsImage(s.gray, s.h, s.w)
    && (forall k :: 0 <= k < |s.faces| ==> Inside(s.faces[k], s.h, s.w))
    && AllNonNegative(s.eyes)
  }

  /** The photos `cv2.imdecode` can produce, with their detections. */
  type Picture = s: Shot | ShotWellFormed(s) witness Shot([], 0, 0, [], [], None)

  /** A photo in which at least one face was found. */
  type FaceShot = c: Picture | |c.faces| > 0 witness Shot([[0]], 1, 1, [Box(0, 0, 1, 1)], [], None)

  // ---------------------------------------------------------------------
  // decode_image
  // ---------------------------------------------------------------------

  /** `decode_image`: the payload after the data-URL header is handed to
      `decoder` (base64 and `cv2.imdecode`, `None` when either fails). */
  function DecodeImage(data: string, decoder: string -> Option<Picture>): Option<Picture>
  {
    decoder(StripDataUrl(data))
  }

  /** A data URL decodes exactly as its bare payload does, and only the
      field after the first comma counts. */
  lemma DecodeIgnoresHeader(header: string, payload: string, rest: string, decoder: string -> Option<Picture>)
    requires ',' !in header && ',' !in payload
    ensures DecodeImage(header + "," + payload, decoder) == DecodeImage(payload, decoder)
    ensures DecodeImage(header + "," + payload + "," + rest, decoder) == DecodeImage(payload, decoder)
  {
    StripDataUrlOfDataUrl(header, payload, rest);
  }

  // ---------------------------------------------------------------------
  // simulate_retina_scan
  // ---------------------------------------------------------------------

  /** `simulate_retina_scan`: the iris samples of the first two eyes padded
      to 50 by repeating pairs from the front (never cut back), one pupil
      record per kept eye, always detected with quality 100. */
  function SimulatedRetina(roi: Gray, rh: nat, rw: nat, eyes: seq<Box>, trig: seq<(real, real)>): Retina
    requires IsImage(roi, rh, rw) && AllNonNegative(eyes)
  {
    var kept := Take(eyes, 2);
    Retina(true, 100, Repeated(IrisSamples(roi, rh, rw, kept, trig), PerfectBiometric.IrisLength, 2),
           seq(|kept|, k requires 0 <= k < |kept| => PupilOf(kept[k])))
  }

  /** With at least one eye sampled the pattern reaches exactly 50 entries
      without overshooting (it starts from at most 48 samples and grows by
      at most what is missing), starting with the samples; with none it is
      empty. Every entry lies in [0, 1]; there is one pupil record of radius
      5 per kept eye. */
  lemma SimulatedRetinaMeaning(roi: Gray, rh: nat, rw: nat, eyes: seq<Box>, trig: seq<(real, real)>)
    requires IsImage(roi, rh, rw) && AllNonNegative(eyes) && UnitCircle(trig)
    ensures var r := SimulatedRetina(roi, rh, rw, eyes, trig);
      var kept := eyes[..Min(2, |eyes|)];
      var samples := IrisSamples(roi, rh, rw, kept, trig);
      && r.detected && r.quality == 100
      && |samples| == 24 * SampledCount(kept, rh, rw) <= 48
      && (SampledCount(kept, rh, rw) > 0 ==> |r.irisPatterns| == PerfectBiometric.IrisLength && r.irisPatterns[..|samples|] == samples)
      && (SampledCount(kept, rh, rw) == 0 ==> r.irisPatterns == [])
      && (forall k :: 0 <= k < |r.irisPatterns| ==> 0.0 <= r.irisPatterns[k] <= 1.0)
      && |r.pupils| == |kept| && (forall k :: 0 <= k < |kept| ==> r.pupils[k] == PupilOf(kept[k]) && r.pupils[k].radius == 5.0)
  {
    var kept := eyes[..Min(2, |eyes|)];
    assert Take(eyes, 2) == kept;
    var samples := IrisSamples(roi, rh, rw, kept, trig);
    IrisSamplesCount(roi, rh, rw, kept, trig);
    PerfectBiometric.SampledCountBound(kept, rh, rw);
    RepeatedMeaning(samples, PerfectBiometric.IrisLength, 2);
    var padded := Repeated(samples, PerfectBiometric.IrisLength, 2);
    forall k | 0 <= k < |padded|
      ensures 0.0 <= padded[k] <= 1.0
    {
      var m :| 0 <= m < |samples| && samples[m] == padded[k];
    }
  }

  /** With samples, the padding loop as written stops after enough rounds
      with the model's padding. */
  lemma SimulatedPaddingAgrees(roi: Gray, rh: nat, rw: nat, eyes: seq<Box>, trig: seq<(real, real)>, fuel: nat)
    requires IsImage(roi, rh, rw) && AllNonNegative(eyes) && fuel >= PerfectBiometric.IrisLength
    requires |IrisSamples(roi, rh, rw, Take(eyes, 2), trig)| > 0
    ensures PadLoopAsWritten(IrisSamples(roi, rh, rw, Take(eyes, 2), trig), PerfectBiometric.IrisLength, 2, fuel)
      == Some(SimulatedRetina(roi, rh, rw, eyes, trig).irisPatterns)
  {
    PadLoopAgrees(IrisSamples(roi, rh, rw, Take(eyes, 2), trig), PerfectBiometric.IrisLength, 2, fuel);
  }

  /** `simulate_retina_scan`. */
  method SimulateRetinaScan(roi: Gray, rh: nat, rw: nat, eyes: seq<Box>, trig: seq<(real, real)>) returns (r: Retina)
    requires IsImage(roi, rh, rw) && AllNonNegative(eyes)
    ensures r == SimulatedRetina(roi, rh, rw, eyes, trig)
  {
    var kept := Take(eyes, 2);
    var samples := SampleIris(roi, rh, rw, kept, trig);
    var padded := PadByRepeating(samples, PerfectBiometric.IrisLength, 2);
    var pupils := PupilData(kept);
    r := Retina(true, 100, padded, pupils);
  }

  // ---------------------------------------------------------------------
  // extract_comprehensive_biometric_data
  // ---------------------------------------------------------------------

  /** The face chosen in a photo: the first largest detected box. */
  function Face(c: FaceShot): (b: Box)
    ensures Inside(b, c.h, c.w)
    ensures b in c.faces && forall k :: 0 <= k < |c.faces| ==> Area(c.faces[k]) <= Area(b)
  {
    c.faces[LargestBox(c.faces, -1)]
  }

  /** The DeepFace encoding cut to 265 entries; empty without one. */
  function DeepEncoding(embedding: Option<seq<real>>): (e: seq<real>)
    ensures |e| <= PerfectBiometric.EncodingLength
    ensures embedding.Some? ==> e == embedding.value[..Min(|embedding.value|, PerfectBiometric.EncodingLength)]
    ensures embedding.None? ==> e == []
  {
    if embedding.Some? then Take(embedding.value, PerfectBiometric.EncodingLength) else []
  }

  /** The profile of a photo with a face. */
  function ProfileFor(c: FaceShot, trig: seq<(real, real)>): Profile
  {
    var face := Face(c);
    var roi := Crop(c.gray, c.h, c.w, face);
    var eyes := Take(c.eyes, 2);
    PerfectBiometric.Profile(face, eyes, Area(face), 100, FirstPairDistanceSquared(eyes), MirrorScore(roi, face.height, face.width),
                             SimulatedRetina(roi, face.height, face.width, eyes, trig), DeepEncoding(c.embedding))
  }

  /** `extract_comprehensive_biometric_data`: nothing when no face is
      found. */
  function Comprehensive(c: Picture, trig: seq<(real, real)>): Option<Profile>
  {
    if |c.faces| == 0 then None else Some(ProfileFor(c, trig))
  }

  /** Extraction fails exactly when no face is found; otherwise the profile
      has the largest face (the first of equal area), at most the first two
      detected eyes, eye distance 0 with fewer than two eyes, quality 100,
      a detected retina and an encoding of at most 265 entries. */
  lemma ComprehensiveMeaning(c: Picture, trig: seq<(real, real)>)
    ensures Comprehensive(c, trig).None? <==> |c.faces| == 0
    ensures Comprehensive(c, trig).Some? ==>
      var p := Comprehensive(c, trig).value;
      && (exists k :: 0 <= k < |c.faces| && p.box == c.faces[k] &&
            (forall j :: 0 <= j < |c.faces| ==> Area(c.faces[j]) <= Area(p.box)) &&
            (forall j :: 0 <= j < k ==> Area(c.faces[j]) < Area(p.box)))
      && p.eyes == c.eyes[..Min(2, |c.eyes|)]
      && (|p.eyes| < 2 ==> p.eyeDistanceSquared == 0)
      && p.area == p.box.width * p.box.height
      && p.quality == 100 && p.retina.detected
      && (p.symmetry.Some? ==> 0.0 <= p.symmetry.value <= 100.0)
      && |p.encoding| <= PerfectBiometric.EncodingLength
  {
    if |c.faces| > 0 {
      var k := LargestBox(c.faces, -1);
      assert Comprehensive(c, trig).value.box == c.faces[k];
      var face := Face(c);
      MirrorScoreMeaning(Crop(c.gray, c.h, c.w, face), face.height, face.width);
    }
  }

  /** A face with no detected eye: no iris point is sampled, and the
      padding loop of `simulate_retina_scan` as written never ends,
      whatever number of rounds is allowed; the model's padding yields an
      empty iris pattern instead. */
  lemma FaceWithoutEyesNeverEnds(c: FaceShot, trig: seq<(real, real)>, fuel: nat)
    requires |c.eyes| == 0
    ensures var face := Face(c);
      var roi := Crop(c.gray, c.h, c.w, face);
      && IrisSamples(roi, face.height, face.width, Take(c.eyes, 2), trig) == []
      && PadLoopAsWritten(IrisSamples(roi, face.height, face.width, Take(c.eyes, 2), trig), PerfectBiometric.IrisLength, 2, fuel).None?
      && ProfileFor(c, trig).retina.irisPatterns == []
  {
    PadLoopNeverEnds(PerfectBiometric.IrisLength, 2, fuel);
  }

  /** `extract_comprehensive_biometric_data`. */
  method ExtractComprehensiveBiometricData(c: Picture, trig: seq<(real, real)>) returns (prof: Option<Profile>)
    ensures prof == Comprehensive(c, trig)
  {
    if |c.faces| == 0 {
      return None;
    }
    var face := c.faces[LargestBox(c.faces, -1)];
    var roi := Crop(c.gray, c.h, c.w, face);
    var eyes := Take(c.eyes, 2);
    var distance := FirstPairDistanceSquared(eyes);
    var encoding: seq<real> := [];
    if c.embedding.Some? {
      encoding := Take(c.embedding.value, PerfectBiometric.EncodingLength);
    }
    var symmetry := MirrorScore(roi, face.height, face.width);
    var retina := SimulateRetinaScan(roi, face.height, face.width, eyes, trig);
    prof := Some(PerfectBiometric.Profile(face, eyes, Area(face), 100, distance, symmetry, retina, encoding));
  }

  // ---------------------------------------------------------------------
  // register_employee_comprehensive
  // ---------------------------------------------------------------------

  /** A processed angle: its name, its photo and the image as uploaded
      (with its data-URL header, if any). */
  datatype Entry = Entry(angle: string, shot: FaceShot, image: string)

  /** The entry of one upload: none when its image does not decode or shows
      no face. */
  function NewEntry(u: Upload, decoder: string -> Option<Picture>): (es: seq<Entry>)
    ensures |es| <= 1
  {
    match DecodeImage(u.data, decoder)
    case None => []
    case Some(c) => if |c.faces| == 0 then [] else [Entry(u.angle, c, u.data)]
  }

  /** The angles with a decodable photo showing a face, in dictionary
      order. */
  function Processed(uploads: seq<Upload>, decoder: string -> Option<Picture>): (es: seq<Entry>)
    ensures |es| <= |uploads|
  {
    if |uploads| == 0 then []
    else
      var n := |uploads| - 1;
      Processed(uploads[..n], decoder) + NewEntry(uploads[n], decoder)
  }

  lemma ProcessedStep(uploads: seq<Upload>, decoder: string -> Option<Picture>, i: nat)
    requires i < |uploads|
    ensures Processed(uploads[..i + 1], decoder) == Processed(uploads[..i], decoder) + NewEntry(uploads[i], decoder)
  {
    assert uploads[..i + 1][..i] == uploads[..i];
  }

  /** Whether an upload yields a profile. */
  predicate Usable(u: Upload, decoder: string -> Option<Picture>)
  {
    DecodeImage(u.data, decoder).Some? && |DecodeImage(u.data, decoder).value.faces| > 0
  }

  function Angles(es: seq<Entry>): (r: seq<string>)
    ensures |r| == |es| && forall k :: 0 <= k < |es| ==> r[k] == es[k].angle
  {
    if |es| == 0 then [] else Angles(es[..|es| - 1]) + [es[|es| - 1].angle]
  }

  lemma AnglesAppend(es: seq<Entry>, e: Entry)
    ensures Angles(es + [e]) == Angles(es) + [e.angle]
  {
    assert (es + [e])[..|es|] == es;
  }

  /** A processed angle comes from an upload that decodes and shows a
      face. */
  lemma {:induction false} ProcessedAngleSound(uploads: seq<Upload>, decoder: string -> Option<Picture>, a: string)
    ensures a in Angles(Processed(uploads, decoder)) ==>
      exists k :: 0 <= k < |uploads| && uploads[k].angle == a && Usable(uploads[k], decoder)
  {
    if |uploads| > 0 {
      var n := |uploads| - 1;
      var prev := Processed(uploads[..n], decoder);
      var es := Processed(uploads, decoder);
      ProcessedAngleSound(uploads[..n], decoder, a);
      if a in Angles(es) {
        var image := DecodeImage(uploads[n].data, decoder);
        if Usable(uploads[n], decoder) && a == uploads[n].angle {
        } else {
          if Usable(uploads[n], decoder) {
            AnglesAppend(prev, Entry(uploads[n].angle, image.value, uploads[n].data));
          } else {
            assert es == prev;
          }
          assert a in Angles(prev);
          var j :| 0 <= j < n && uploads[..n][j].angle == a && Usable(uploads[..n][j], decoder);
          assert uploads[j] == uploads[..n][j];
        }
      }
    }
  }

  /** An upload that decodes and shows a face has its angle processed. */
  lemma {:induction false} ProcessedAngleComplete(uploads: seq<Upload>, decoder: string -> Option<Picture>, k: nat)
    requires k < |uploads| && Usable(uploads[k], decoder)
    ensures uploads[k].angle in Angles(Processed(uploads, decoder))
  {
    var n := |uploads| - 1;
    var prev := Processed(uploads[..n], decoder);
    assert Processed(uploads, decoder) == prev + NewEntry(uploads[n], decoder);
    if k < n {
      assert uploads[..n][k] == uploads[k];
      ProcessedAngleComplete(uploads[..n], decoder, k);
    }
    if Usable(uploads[n], decoder) {
      AnglesAppend(prev, Entry(uploads[n].angle, DecodeImage(uploads[n].data, decoder).value, uploads[n].data));
    } else {
      assert Processed(uploads, decoder) == prev;
    }
  }

  /** The profile of each entry, in order. */
  function Profiles(es: seq<Entry>, trig: seq<(real, real)>): (ps: seq<Profile>)
    ensures |ps| == |es|
  {
    if |es| == 0 then [] else Profiles(es[..|es| - 1], trig) + [ProfileFor(es[|es| - 1].shot, trig)]
  }

  lemma {:induction false} ProfilesAt(es: seq<Entry>, trig: seq<(real, real)>, k: nat)
    requires k < |es|
    ensures Profiles(es, trig)[k] == ProfileFor(es[k].shot, trig)
  {
    var n := |es| - 1;
    if k < n {
      assert es[..n][k] == es[k];
      ProfilesAt(es[..n], trig, k);
    }
  }

  lemma ProfilesAppend(es: seq<Entry>, e: Entry, trig: seq<(real, real)>)
    ensures Profiles(es + [e], trig) == Profiles(es, trig) + [ProfileFor(e.shot, trig)]
  {
    assert (es + [e])[..|es|] == es;
  }

  function ProfilePairs(es: seq<Entry>, ps: seq<Profile>): (r: seq<(string, Profile)>)
    requires |ps| == |es|
    ensures |r| == |es| && forall k :: 0 <= k < |es| ==> r[k] == (es[k].angle, ps[k])
  {
    if |es| == 0 then [] else ProfilePairs(es[..|es| - 1], ps[..|ps| - 1]) + [(es[|es| - 1].angle, ps[|ps| - 1])]
  }

  function ImagePairs(es: seq<Entry>): (r: seq<(string, string)>)
    ensures |r| == |es| && forall k :: 0 <= k < |es| ==> r[k] == (es[k].angle, es[k].image)
  {
    if |es| == 0 then [] else ImagePairs(es[..|es| - 1]) + [(es[|es| - 1].angle, es[|es| - 1].image)]
  }

  /** `all_face_encodings`: the encodings of all angles, one after the
      other. */
  function AllEncodings(ps: seq<Profile>): seq<real>
  {
    if |ps| == 0 then [] else AllEncodings(ps[..|ps| - 1]) + ps[|ps| - 1].encoding
  }

  /** The concatenation is as long as all encodings together, and begins
      with the encoding of the first angle. */
  lemma {:induction false} AllEncodingsMeaning(ps: seq<Profile>)
    ensures |AllEncodings(ps)| == PerfectBiometric.TotalFeatures(ps)
    ensures |ps| > 0 ==> |ps[0].encoding| <= |AllEncodings(ps)| && AllEncodings(ps)[..|ps[0].encoding|] == ps[0].encoding
  {
    if |ps| > 0 {
      var n := |ps| - 1;
      AllEncodingsMeaning(ps[..n]);
      if n > 0 {
        assert ps[..n][0] == ps[0];
        assert AllEncodings(ps)[..|ps[0].encoding|] == AllEncodings(ps[..n])[..|ps[0].encoding|];
      }
    }
  }

  /** The `face_image` stored: `Center`, else `Frontal`, else the empty
      string; one starting with `data:image` loses its header, and one
      without a comma makes `split(',')[1]` fail (`None`). */
  function CenterImage(images: seq<(string, string)>): Option<string>
  {
    var center :=
      match PerfectBiometric.Lookup(images, "Center")
      case Some(v) => v
      case None =>
        match PerfectBiometric.Lookup(images, "Frontal")
        case Some(v) => v
        case None => "";
    if center != "" && StartsWith(center, "data:image") then
      if ',' in center then Some(StripDataUrl(center)) else None
    else Some(center)
  }

  /** The `Center` image is chosen, else the `Frontal` one, else the empty
      string. A data URL of an image stores its payload; anything else is
      stored as it is, except a `data:image` string without a comma, which
      fails. */
  lemma CenterImageMeaning(images: seq<(string, string)>, header: string, payload: string)
    requires ',' !in header && ',' !in payload && StartsWith(header, "data:image")
    ensures PerfectBiometric.Lookup(images, "Center") == Some(header + "," + payload) ==> CenterImage(images) == Some(payload)
    ensures PerfectBiometric.Lookup(images, "Center") == Some(header) ==> CenterImage(images).None?
    ensures PerfectBiometric.Lookup(images, "Center").Some? && !StartsWith(PerfectBiometric.Lookup(images, "Center").value, "data:image") ==>
      CenterImage(images) == PerfectBiometric.Lookup(images, "Center")
    ensures PerfectBiometric.Lookup(images, "Center").None? ==>
      && (PerfectBiometric.Lookup(images, "Frontal") == Some(header + "," + payload) ==> CenterImage(images) == Some(payload))
      && (PerfectBiometric.Lookup(images, "Frontal") == Some(header) ==> CenterImage(images).None?)
      && (PerfectBiometric.Lookup(images, "Frontal").Some? && !StartsWith(PerfectBiometric.Lookup(images, "Frontal").value, "data:image") ==>
            CenterImage(images) == PerfectBiometric.Lookup(images, "Frontal"))
    ensures PerfectBiometric.Lookup(images, "Center").None? && PerfectBiometric.Lookup(images, "Frontal").None? ==>
      CenterImage(images) == Some("")
  {
    var url := header + "," + payload;
    StripDataUrlOfDataUrl(header, payload, "");
    assert url[..|header|] == header;
    assert url[..10] == header[..10];
    assert url[|header|] == ',';
  }

  /** The employee document handed to the database. */
  datatype Document = Document(
    profiles: seq<(string, Profile)>,
    faceImages: seq<(string, string)>,
    angles: seq<string>,
    qualities: seq<int>,
    faceEncoding: seq<real>,
    totalAngles: nat,
    received: nat,
    processed: nat,
    retinaScansDetected: nat,
    faceImage: string)

  /** The response of `register_employee_comprehensive`. */
  datatype Response =
    | Registered(anglesProcessed: seq<string>, totalFeatures: nat, qualityScores: seq<int>)
    | Refused(error: string)

  /** The document written (none when registration stops before) and the
      response. */
  datatype Registration = Registration(document: Option<Document>, response: Response)

  const NoData := "No valid biometric data extracted"
  const IndexError := "list index out of range"
  const SaveFailed := "Failed to save to database"

  /** The whole registration; `saved` is whether the database update or
      insert succeeded. */
  function RegistrationOf(uploads: seq<Upload>, decoder: string -> Option<Picture>, trig: seq<(real, real)>, saved: bool): Registration
  {
    var es := Processed(uploads, decoder);
    if |es| == 0 then Registration(None, Refused(NoData))
    else
      var ps := Profiles(es, trig);
      var images := ImagePairs(es);
      match CenterImage(images)
      case None => Registration(None, Refused(IndexError))
      case Some(main) =>
        var all := AllEncodings(ps);
        var qualities := PerfectBiometric.Qualities(ps);
        var profiles := ProfilePairs(es, ps);
        var doc := Document(profiles, images, Angles(es), qualities, Take(all, PerfectBiometric.EncodingLength),
                            |es|, |uploads|, |es|, PerfectBiometric.RetinaScansDetected(profiles), main);
        Registration(Some(doc), if saved then Registered(Angles(es), |all|, qualities) else Refused(SaveFailed))
  }

  /** What registration promises: it is rejected when no angle yields a
      profile, when the centre image is a `data:image` string without a
      comma, or when the database refuses the document; otherwise the
      lists run in step over the usable angles in dictionary order with
      quality 100 each, the stored encoding is the concatenation cut to
      265 and starting with the first angle's encoding, and the reported
      feature count is that of the whole concatenation. */
  lemma RegistrationMeaning(uploads: seq<Upload>, decoder: string -> Option<Picture>, trig: seq<(real, real)>, saved: bool)
    ensures var r := RegistrationOf(uploads, decoder, trig, saved);
      var es := Processed(uploads, decoder);
      && (|es| == 0 <==> r.response == Refused(NoData))
      && (r.response.Registered? <==> saved && r.document.Some?)
      && (r.document.Some? ==>
            var doc := r.document.value;
            && |es| > 0
            && doc.angles == Angles(es) && doc.totalAngles == |doc.angles| == doc.processed
            && |doc.profiles| == |doc.faceImages| == |doc.qualities| == |doc.angles|
            && doc.received == |uploads|
            && (forall k :: 0 <= k < |doc.angles| ==>
                  doc.profiles[k].0 == doc.angles[k] && doc.faceImages[k] == (doc.angles[k], es[k].image) &&
                  doc.qualities[k] == doc.profiles[k].1.quality)
            && doc.faceEncoding == Take(AllEncodings(Profiles(es, trig)), PerfectBiometric.EncodingLength)
            && |doc.faceEncoding| <= PerfectBiometric.EncodingLength
            && (r.response.Registered? ==>
                  && r.response.anglesProcessed == doc.angles && r.response.qualityScores == doc.qualities
                  && r.response.totalFeatures == PerfectBiometric.TotalFeatures(Profiles(es, trig))
                  && doc.faceEncoding == AllEncodings(Profiles(es, trig))[..Min(r.response.totalFeatures, PerfectBiometric.EncodingLength)]))
  {
    var es := Processed(uploads, decoder);
    if |es| > 0 {
      var ps := Profiles(es, trig);
      AllEncodingsMeaning(ps);
    }
  }

  /** Every stored profile has its retina detected, so all are counted. */
  lemma RegistrationRetinas(uploads: seq<Upload>, decoder: string -> Option<Picture>, trig: seq<(real, real)>, saved: bool)
    ensures var r := RegistrationOf(uploads, decoder, trig, saved);
      r.document.Some? ==> r.document.value.retinaScansDetected == r.document.value.processed
  {
    ProfilesDetected(Processed(uploads, decoder), trig);
  }

  /** Every profile of the usable angles has its retina detected, so all
      are counted. */
  lemma ProfilesDetected(es: seq<Entry>, trig: seq<(real, real)>)
    ensures var profiles := ProfilePairs(es, Profiles(es, trig));
      PerfectBiometric.RetinaScansDetected(profiles) == |es|
  {
    var profiles := ProfilePairs(es, Profiles(es, trig));
    forall k | 0 <= k < |profiles|
      ensures profiles[k].1.retina.detected
    {
      ProfilesAt(es, trig, k);
    }
    PerfectBiometric.AllRetinasDetected(profiles);
  }

  /** The stored encoding (the concatenation cut to 265) begins with the
      DeepFace encoding of the first usable angle. */
  lemma StoredEncodingStart(es: seq<Entry>, trig: seq<(real, real)>)
    requires |es| > 0
    ensures var stored := Take(AllEncodings(Profiles(es, trig)), PerfectBiometric.EncodingLength);
      var first := DeepEncoding(es[0].shot.embedding);
      |first| <= |stored| && stored[..|first|] == first
  {
    var ps := Profiles(es, trig);
    AllEncodingsMeaning(ps);
    ProfilesAt(es, trig, 0);
    ProfileForEncoding(es[0].shot, trig);
  }

  lemma ProfileForEncoding(c: FaceShot, trig: seq<(real, real)>)
    ensures ProfileFor(c, trig).encoding == DeepEncoding(c.embedding)
  {
  }

  /** Each stored angle carries the profile `extract_comprehensive_biometric_data`
      gives for its photo, of quality 100. */
  lemma RegistrationProfileAt(uploads: seq<Upload>, decoder: string -> Option<Picture>, trig: seq<(real, real)>, saved: bool, k: nat)
    requires k < |Processed(uploads, decoder)|
    ensures var r := RegistrationOf(uploads, decoder, trig, saved);
      var es := Processed(uploads, decoder);
      r.document.Some? ==> r.document.value.profiles[k] == (es[k].angle, ProfileFor(es[k].shot, trig)) && r.document.value.qualities[k] == 100
  {
    ProfilesAt(Processed(uploads, decoder), trig, k);
  }

  /** The registration lists hold exactly what the entries `es` and their
      profiles `ps` give. */
  predicate Accumulated(es: seq<Entry>, ps: seq<Profile>, profiles: seq<(string, Profile)>, faceImages: seq<(string, string)>,
                        angles: seq<string>, qualities: seq<int>, encodings: seq<real>)
  {
    && |ps| == |es|
    && profiles == ProfilePairs(es, ps) && faceImages == ImagePairs(es) && angles == Angles(es)
    && qualities == PerfectBiometric.Qualities(ps) && encodings == AllEncodings(ps)
  }

  lemma AccumulateStep(es: seq<Entry>, ps: seq<Profile>, e: Entry, p: Profile, profiles: seq<(string, Profile)>,
                       faceImages: seq<(string, string)>, angles: seq<string>, qualities: seq<int>, encodings: seq<real>)
    requires Accumulated(es, ps, profiles, faceImages, angles, qualities, encodings)
    ensures Accumulated(es + [e], ps + [p], profiles + [(e.angle, p)], faceImages + [(e.angle, e.image)],
                        angles + [e.angle], qualities + [p.quality], encodings + p.encoding)
  {
    assert (es + [e])[..|es|] == es;
    assert (ps + [p])[..|ps|] == ps;
  }

  /** The loop of `register_employee_comprehensive` over the uploaded
      angles. */
  method CollectComprehensive(uploads: seq<Upload>, decoder: string -> Option<Picture>, trig: seq<(real, real)>)
    returns (profiles: seq<(string, Profile)>, faceImages: seq<(string, string)>, angles: seq<string>, qualities: seq<int>, encodings: seq<real>)
    ensures var es := Processed(uploads, decoder);
      Accumulated(es, Profiles(es, trig), profiles, faceImages, angles, qualities, encodings)
  {
    profiles, faceImages, angles, qualities, encodings := [], [], [], [], [];
    ghost var ps: seq<Profile> := [];
    for i := 0 to |uploads|
      invariant ps == Profiles(Processed(uploads[..i], decoder), trig)
      invariant Accumulated(Processed(uploads[..i], decoder), ps, profiles, faceImages, angles, qualities, encodings)
    {
      var u := uploads[i];
      ProcessedStep(uploads, decoder, i);
      ghost var es := Processed(uploads[..i], decoder);
      var image := DecodeImage(u.data, decoder);
      if image.None? {
        assert es + NewEntry(u, decoder) == es;
        continue;
      }
      var prof := ExtractComprehensiveBiometricData(image.value, trig);
      if prof.None? {
        assert es + NewEntry(u, decoder) == es;
        continue;
      }
      ghost var e := Entry(u.angle, image.value, u.data);
      assert NewEntry(u, decoder) == [e];
      AccumulateStep(es, ps, e, prof.value, profiles, faceImages, angles, qualities, encodings);
      ProfilesAppend(es, e, trig);
      ps := ps + [prof.value];
      profiles := profiles + [(u.angle, prof.value)];
      faceImages := faceImages + [(u.angle, u.data)];
      angles := angles + [u.angle];
      qualities := qualities + [prof.value.quality];
      if |prof.value.encoding| > 0 {
        encodings := encodings + prof.value.encoding;
      }
    }
    assert uploads[..|uploads|] == uploads;
  }

  /** `register_employee_comprehensive`; `saved` is the outcome of the
      database update, or of the insert that follows a failed update. */
  method RegisterEmployeeComprehensive(uploads: seq<Upload>, decoder: string -> Option<Picture>, trig: seq<(real, real)>, saved: bool)
    returns (reg: Registration)
    ensures reg == RegistrationOf(uploads, decoder, trig, saved)
  {
    var profiles, faceImages, angles, qualities, encodings := CollectComprehensive(uploads, decoder, trig);
    if |profiles| == 0 {
      return Registration(None, Refused(NoData));
    }
    var center := CenterImage(faceImages);
    if center.None? {
      return Registration(None, Refused(IndexError));
    }
    var doc := Document(profiles, faceImages, angles, qualities, Take(encodings, PerfectBiometric.EncodingLength),
                        |angles|, |uploads|, |profiles|, PerfectBiometric.RetinaScansDetected(profiles), center.value);
    if saved {
      reg := Registration(Some(doc), Registered(angles, |encodings|, qualities));
    } else {
      reg := Registration(Some(doc), Refused(SaveFailed));
    }
  }
}
