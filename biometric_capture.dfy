/** The integer image heuristics of the biometric capture service: the
    single-face gate and quality floor, the weighted quality score, the
    mirror symmetry score, eye-pair selection, the 8-neighbour local binary
    pattern, the iris features and the retina summary. Cascade detectors,
    resizing, blurring and the pupil detector are foreign library calls: their
    outputs are inputs here. */
module BiometricCapture {
  import opened Common

  // ---------------------------------------------------------------------
  // Bits
  // ---------------------------------------------------------------------

  function Pow2(k: nat): (p: nat)
    ensures p > 0
  {
    if k == 0 then 1 else 2 * Pow2(k - 1)
  }

  /** The first `n` comparison bits read as a binary number, most
      significant first. */
  function BitsValue(bs: seq<bool>, n: nat): nat
    requires n <= |bs|
  {
    if n == 0 then 0 else 2 * BitsValue(bs, n - 1) + Bit(bs[n - 1])
  }

  /** A comparison as the integer Python makes of it. */
  function Bit(b: bool): nat
  {
    if b then 1 else 0
  }

  lemma {:induction false} BitsValueBound(bs: seq<bool>, n: nat)
    requires n <= |bs|
    ensures BitsValue(bs, n) < Pow2(n)
  {
    if n > 0 {
      BitsValueBound(bs, n - 1);
    }
  }

  /** `(v >> m) & 1 == 1`. */
  predicate BitAt(v: nat, m: nat)
  {
    if m == 0 then v % 2 == 1 else BitAt(v / 2, m - 1)
  }

  /** Bit `k` of the value, counted from the most significant end, is the
      `k`-th comparison. */
  lemma {:induction false} BitsValueBit(bs: seq<bool>, n: nat, k: nat)
    requires k < n <= |bs|
    ensures BitAt(BitsValue(bs, n), n - 1 - k) <==> bs[k]
  {
    assert BitsValue(bs, n) / 2 == BitsValue(bs, n - 1);
    if k < n - 1 {
      BitsValueBit(bs, n - 1, k);
    }
  }

  lemma {:induction false} BitsValueAllSet(bs: seq<bool>, n: nat)
    requires n <= |bs| && forall k :: 0 <= k < n ==> bs[k]
    ensures BitsValue(bs, n) == Pow2(n) - 1
  {
    if n > 0 {
      BitsValueAllSet(bs, n - 1);
    }
  }

  // ---------------------------------------------------------------------
  // The 8-neighbour local binary pattern
  // ---------------------------------------------------------------------

  /** The neighbours of `(i, j)` from the top-left clockwise to the left. */
  function Ring8(img: Gray, h: nat, w: nat, i: nat, j: nat): (ns: seq<int>)
    requires IsImage(img, h, w) && 1 <= i < h - 1 && 1 <= j < w - 1
    ensures |ns| == 8
  {
    [img[i - 1][j - 1], img[i - 1][j], img[i - 1][j + 1], img[i][j + 1],
     img[i + 1][j + 1], img[i + 1][j], img[i + 1][j - 1], img[i][j - 1]]
  }

  function AtLeast(ns: seq<int>, c: int): (bs: seq<bool>)
    ensures |bs| == |ns| && forall k :: 0 <= k < |ns| ==> bs[k] == (ns[k] >= c)
  {
    seq(|ns|, k requires 0 <= k < |ns| => ns[k] >= c)
  }

  /** The LBP code of an interior pixel: bit 7 for the top-left neighbour,
      clockwise down to bit 0 for the left one, set when the neighbour is at
      least the centre. */
  function LbpCode(img: Gray, h: nat, w: nat, i: nat, j: nat): (code: nat)
    requires IsImage(img, h, w) && 1 <= i < h - 1 && 1 <= j < w - 1
    ensures code < 256
  {
    var bs := AtLeast(Ring8(img, h, w, i, j), img[i][j]);
    BitsValueBound(bs, 8);
    BitsValue(bs, 8)
  }

  /** Bit `7 - k` of the code is set exactly when neighbour `k` is at least
      the centre. */
  lemma LbpCodeBits(img: Gray, h: nat, w: nat, i: nat, j: nat, k: nat)
    requires IsImage(img, h, w) && 1 <= i < h - 1 && 1 <= j < w - 1 && k < 8
    ensures BitAt(LbpCode(img, h, w, i, j), 7 - k) <==> Ring8(img, h, w, i, j)[k] >= img[i][j]
  {
    BitsValueBit(AtLeast(Ring8(img, h, w, i, j), img[i][j]), 8, k);
  }

  /** In a flat image every neighbour equals the centre, so every code is 255. */
  lemma LbpCodeFlat(img: Gray, h: nat, w: nat, i: nat, j: nat)
    requires IsImage(img, h, w) && 1 <= i < h - 1 && 1 <= j < w - 1
    requires forall r, c :: 0 <= r < h && 0 <= c < w ==> img[r][c] == img[0][0]
    ensures LbpCode(img, h, w, i, j) == 255
  {
    var bs := AtLeast(Ring8(img, h, w, i, j), img[i][j]);
    BitsValueAllSet(bs, 8);
    assert Pow2(8) == 256;
  }

  /** Four more bits shift the value left by four. */
  lemma BitsValueFour(bs: seq<bool>, n: nat)
    requires n + 4 <= |bs|
    ensures BitsValue(bs, n + 4) == 16 * BitsValue(bs, n) + 8 * Bit(bs[n]) + 4 * Bit(bs[n + 1]) +
                                    2 * Bit(bs[n + 2]) + Bit(bs[n + 3])
  {
    assert BitsValue(bs, n + 2) == 4 * BitsValue(bs, n) + 2 * Bit(bs[n]) + Bit(bs[n + 1]);
    assert BitsValue(bs, n + 4) == 4 * BitsValue(bs, n + 2) + 2 * Bit(bs[n + 2]) + Bit(bs[n + 3]);
  }

  lemma BitsValueEight(bs: seq<bool>)
    requires |bs| == 8
    ensures BitsValue(bs, 8) == 128 * Bit(bs[0]) + 64 * Bit(bs[1]) + 32 * Bit(bs[2]) + 16 * Bit(bs[3]) +
                                8 * Bit(bs[4]) + 4 * Bit(bs[5]) + 2 * Bit(bs[6]) + Bit(bs[7])
  {
    BitsValueFour(bs, 0);
    BitsValueFour(bs, 4);
  }


  /** The code of one interior pixel, bit by bit. */
  method PixelCode(img: Gray, h: nat, w: nat, i: nat, j: nat) returns (code: int)
    requires IsImage(img, h, w) && 1 <= i < h - 1 && 1 <= j < w - 1
    ensures code == LbpCode(img, h, w, i, j)
  {
    var center := img[i][j];
    code := 0;
    code := code + 128 * Bit(img[i - 1][j - 1] >= center);
    code := code + 64 * Bit(img[i - 1][j] >= center);
    code := code + 32 * Bit(img[i - 1][j + 1] >= center);
    code := code + 16 * Bit(img[i][j + 1] >= center);
    code := code + 8 * Bit(img[i + 1][j + 1] >= center);
    code := code + 4 * Bit(img[i + 1][j] >= center);
    code := code + 2 * Bit(img[i + 1][j - 1] >= center);
    code := code + Bit(img[i][j - 1] >= center);
    BitsValueEight(AtLeast(Ring8(img, h, w, i, j), center));
  }

  /** `calculate_lbp_features`: the code of every interior pixel, written
      into an `(h-2) x (w-2)` grid. */
  method CalculateLbpCodes(img: Gray, h: nat, w: nat) returns (lbp: array2<int>)
    requires IsImage(img, h, w) && h >= 2 && w >= 2
    ensures fresh(lbp) && lbp.Length0 == h - 2 && lbp.Length1 == w - 2
    ensures forall i, j :: 0 <= i < h - 2 && 0 <= j < w - 2 ==> lbp[i, j] == LbpCode(img, h, w, i + 1, j + 1)
  {
    lbp := new int[h - 2, w - 2]((i, j) => 0);
    for i := 1 to h - 1
      invariant forall i', j' :: 0 <= i' < i - 1 && 0 <= j' < w - 2 ==> lbp[i', j'] == LbpCode(img, h, w, i' + 1, j' + 1)
    {
      for j := 1 to w - 1
        invariant forall i', j' :: 0 <= i' < i - 1 && 0 <= j' < w - 2 ==> lbp[i', j'] == LbpCode(img, h, w, i' + 1, j' + 1)
        invariant forall j' :: 1 <= j' < j ==> lbp[i - 1, j' - 1] == LbpCode(img, h, w, i, j')
      {
        var code := PixelCode(img, h, w, i, j);
        lbp[i - 1, j - 1] := code;
      }
    }
  }

  // ---------------------------------------------------------------------
  // Iris features
  // ---------------------------------------------------------------------

  /** The ring samples that fall inside the eye image, normalised to [0, 1]. */
  function RingFeatures(eye: Gray, h: nat, w: nat, ring: seq<Point>): (fs: seq<real>)
    requires IsImage(eye, h, w)
    ensures |fs| <= |ring|
    ensures forall k :: 0 <= k < |fs| ==> 0.0 <= fs[k] <= 1.0
  {
    if |ring| == 0 then []
    else
      var p := ring[|ring| - 1];
      RingFeatures(eye, h, w, ring[..|ring| - 1]) +
      (if 0 <= p.x < w && 0 <= p.y < h then [eye[p.y][p.x] as real / 255.0] else [])
  }

  /** Python's `range(lo, hi, 2)`. */
  function Steps(lo: int, hi: int): (s: seq<int>)
    ensures forall k :: 0 <= k < |s| ==> lo <= s[k] < hi
    decreases hi - lo
  {
    if lo >= hi then [] else [lo] + Steps(lo + 2, hi)
  }

  /** The 4-neighbour code at column `i`, row `j`: bit 0 for the top-left,
      bit 1 for the top, bit 2 for the top-right and bit 3 for the right
      neighbour, with indices clamped to the image. */
  function IrisCode(eye: Gray, h: nat, w: nat, i: int, j: int): (code: nat)
    requires IsImage(eye, h, w) && 0 <= i < w && 0 <= j < h
    ensures code <= 15
  {
    var c := eye[j][i];
    Bit(eye[Max(0, j - 1)][Max(0, i - 1)] >= c) + 2 * Bit(eye[Max(0, j - 1)][i] >= c) +
    4 * Bit(eye[Max(0, j - 1)][Min(w - 1, i + 1)] >= c) + 8 * Bit(eye[j][Min(w - 1, i + 1)] >= c)
  }

  /** The codes of one column `i` over the rows `js`. */
  function ColumnCodes(eye: Gray, h: nat, w: nat, i: int, js: seq<int>): (cs: seq<nat>)
    requires IsImage(eye, h, w) && 0 <= i < w
    requires forall k :: 0 <= k < |js| ==> 0 <= js[k] < h
    ensures |cs| == |js| && forall k :: 0 <= k < |cs| ==> cs[k] <= 15
  {
    if |js| == 0 then []
    else ColumnCodes(eye, h, w, i, js[..|js| - 1]) + [IrisCode(eye, h, w, i, js[|js| - 1])]
  }

  /** The codes of the columns `is`, each over the rows `js`, column by column. */
  function TextureCodes(eye: Gray, h: nat, w: nat, cols: seq<int>, js: seq<int>): (cs: seq<nat>)
    requires IsImage(eye, h, w)
    requires forall k :: 0 <= k < |cols| ==> 0 <= cols[k] < w
    requires forall k :: 0 <= k < |js| ==> 0 <= js[k] < h
    ensures forall k :: 0 <= k < |cs| ==> cs[k] <= 15
  {
    if |cols| == 0 then []
    else TextureCodes(eye, h, w, cols[..|cols| - 1], js) + ColumnCodes(eye, h, w, cols[|cols| - 1], js)
  }

  function Scaled(cs: seq<nat>): (fs: seq<real>)
    ensures |fs| == |cs| && forall k :: 0 <= k < |cs| ==> fs[k] == cs[k] as real / 15.0
  {
    if |cs| == 0 then [] else Scaled(cs[..|cs| - 1]) + [cs[|cs| - 1] as real / 15.0]
  }

  /** How many texture codes fit under the cap of 100 features. */
  function Room(ringCount: nat): nat
  {
    if ringCount < 100 then 100 - ringCount else 0
  }

  /** `extract_iris_features`: the in-bounds ring samples, then, when there
      was at least one, texture codes around the pupil at even offsets while
      fewer than 100 features are held. */
  function IrisFeatures(eye: Gray, h: nat, w: nat, cx: int, cy: int, ring: seq<Point>): seq<real>
    requires IsImage(eye, h, w)
  {
    var rf := RingFeatures(eye, h, w, ring);
    if |rf| == 0 then []
    else
      var cs := TextureCodes(eye, h, w, Steps(Max(0, cx - 8), Min(w, cx + 8)), Steps(Max(0, cy - 8), Min(h, cy + 8)));
      rf + Scaled(cs[..Min(|cs|, Room(|rf|))])
  }

  /** Every iris feature lies in [0, 1]; there are no more than the larger
      of the ring count and 100; none without an in-bounds ring sample. */
  lemma IrisFeaturesMeaning(eye: Gray, h: nat, w: nat, cx: int, cy: int, ring: seq<Point>)
    requires IsImage(eye, h, w)
    ensures var fs := IrisFeatures(eye, h, w, cx, cy, ring);
      && (forall k :: 0 <= k < |fs| ==> 0.0 <= fs[k] <= 1.0)
      && |fs| <= Max(|ring|, 100)
      && (|fs| == 0 <==> |RingFeatures(eye, h, w, ring)| == 0)
  {
  }

  /** The feature list of the loop: the ring part, then the first `Room`
      codes seen so far. */
  predicate TextureSoFar(rf: seq<real>, seen: seq<nat>, features: seq<real>)
  {
    features == rf + Scaled(seen[..Min(|seen|, Room(|rf|))])
  }

  lemma TextureStep(rf: seq<real>, seen: seq<nat>, features: seq<real>, code: nat)
    requires |rf| > 0 && TextureSoFar(rf, seen, features)
    ensures |features| < 100 ==> TextureSoFar(rf, seen + [code], features + [code as real / 15.0])
    ensures |features| >= 100 ==> TextureSoFar(rf, seen + [code], features)
  {
    var s2 := seen + [code];
    if |features| < 100 {
      assert |seen| < Room(|rf|);
      assert s2[..Min(|s2|, Room(|rf|))] == seen[..Min(|seen|, Room(|rf|))] + [code];
    } else {
      assert s2[..Min(|s2|, Room(|rf|))] == seen[..Min(|seen|, Room(|rf|))];
    }
  }

  /** The ring stage of the loop. */
  method SampleRing(eye: Gray, h: nat, w: nat, ring: seq<Point>) returns (features: seq<real>)
    requires IsImage(eye, h, w)
    ensures features == RingFeatures(eye, h, w, ring)
  {
    features := [];
    for k := 0 to |ring|
      invariant features == RingFeatures(eye, h, w, ring[..k])
    {
      var p := ring[k];
      assert ring[..k + 1][..k] == ring[..k];
      if 0 <= p.x < w && 0 <= p.y < h {
        features := features + [eye[p.y][p.x] as real / 255.0];
      }
    }
    assert ring[..|ring|] == ring;
  }

  /** One column of the texture stage: the codes down the rows `js`, each
      appended while fewer than 100 features are held. */
  method TextureColumn(eye: Gray, h: nat, w: nat, i: int, js: seq<int>, ghost rf: seq<real>, ghost seen: seq<nat>,
                       features: seq<real>) returns (ghost seen': seq<nat>, features': seq<real>)
    requires IsImage(eye, h, w) && 0 <= i < w && forall k :: 0 <= k < |js| ==> 0 <= js[k] < h
    requires |rf| > 0 && TextureSoFar(rf, seen, features)
    ensures seen' == seen + ColumnCodes(eye, h, w, i, js)
    ensures TextureSoFar(rf, seen', features')
  {
    seen', features' := seen, features;
    for b := 0 to |js|
      invariant seen' == seen + ColumnCodes(eye, h, w, i, js[..b])
      invariant TextureSoFar(rf, seen', features')
    {
      var j := js[b];
      var center := eye[j][i];
      var neighbours := [eye[Max(0, j - 1)][Max(0, i - 1)], eye[Max(0, j - 1)][i],
                         eye[Max(0, j - 1)][Min(w - 1, i + 1)], eye[j][Min(w - 1, i + 1)]];
      var code := Bit(neighbours[0] >= center) + 2 * Bit(neighbours[1] >= center) +
                  4 * Bit(neighbours[2] >= center) + 8 * Bit(neighbours[3] >= center);
      assert code == IrisCode(eye, h, w, i, j);
      assert js[..b + 1][..b] == js[..b];
      TextureStep(rf, seen', features', code);
      if |features'| < 100 {
        features' := features' + [code as real / 15.0];
      }
      seen' := seen' + [code];
    }
    assert js[..|js|] == js;
  }

  /** `extract_iris_features`, loop by loop. */
  method ExtractIrisFeatures(eye: Gray, h: nat, w: nat, cx: int, cy: int, ring: seq<Point>)
    returns (features: seq<real>)
    requires IsImage(eye, h, w)
    ensures features == IrisFeatures(eye, h, w, cx, cy, ring)
  {
    features := SampleRing(eye, h, w, ring);
    if |features| == 0 {
      return;
    }
    var cols := Steps(Max(0, cx - 8), Min(w, cx + 8));
    var js := Steps(Max(0, cy - 8), Min(h, cy + 8));
    features := TextureStage(eye, h, w, cols, js, features);
  }

  /** The texture stage of the loop: the codes column by column, appended
      after the ring features `rf` while fewer than 100 features are held. */
  method TextureStage(eye: Gray, h: nat, w: nat, cols: seq<int>, js: seq<int>, rf: seq<real>)
    returns (features: seq<real>)
    requires IsImage(eye, h, w) && |rf| > 0
    requires (forall k :: 0 <= k < |cols| ==> 0 <= cols[k] < w) && (forall k :: 0 <= k < |js| ==> 0 <= js[k] < h)
    ensures TextureSoFar(rf, TextureCodes(eye, h, w, cols, js), features)
  {
    features := rf;
    ghost var seen: seq<nat> := [];
    assert TextureSoFar(rf, seen, features);
    for a := 0 to |cols|
      invariant seen == TextureCodes(eye, h, w, cols[..a], js)
      invariant TextureSoFar(rf, seen, features)
    {
      assert cols[..a + 1][..a] == cols[..a];
      seen, features := TextureColumn(eye, h, w, cols[a], js, rf, seen, features);
    }
    assert cols[..|cols|] == cols;
  }

  // ---------------------------------------------------------------------
  // Retina summary
  // ---------------------------------------------------------------------

  /** What the library calls report for one detected eye: whether its
      region was empty, the eye resized to 64 x 32, the pupil found in it
      with its radius, and the 8 x 16 ring points around the pupil. */
  datatype EyeScan = EyeScan(eye: Box, roiEmpty: bool, resized: Gray, pupil: Option<Point>, radius: real, ring: seq<Point>)

  predicate ScanWellFormed(s: EyeScan)
  {
    IsImage(s.resized, 32, 64) && |s.ring| == 128
  }

  datatype PupilRecord = PupilRecord(center: Point, radius: real, eyeX: int, eyeY: int)

  datatype Retina = Retina(detected: bool, quality: int, irisPatterns: seq<real>, pupils: seq<PupilRecord>)

  /** The iris features of an eye, or nothing when it is skipped. */
  function EyeFeatures(s: EyeScan): seq<real>
    requires ScanWellFormed(s)
  {
    if s.roiEmpty || s.pupil.None? || s.radius <= 3.0 then []
    else IrisFeatures(s.resized, 32, 64, s.pupil.value.x, s.pupil.value.y, s.ring)
  }

  /** The features and pupil records collected from the eyes, in order. */
  function Collected(scans: seq<EyeScan>): (r: (seq<real>, seq<PupilRecord>))
    requires forall k :: 0 <= k < |scans| ==> ScanWellFormed(scans[k])
  {
    if |scans| == 0 then ([], [])
    else
      var prev := Collected(scans[..|scans| - 1]);
      var s := scans[|scans| - 1];
      var f := EyeFeatures(s);
      if |f| > 0 then (prev.0 + f, prev.1 + [PupilRecord(s.pupil.value, s.radius, s.eye.x, s.eye.y)])
      else prev
  }

  /** The retina verdict on the collected features: detected only with a
      valid eye and at least 20 features. */
  function RetinaOf(iris: seq<real>, pupils: seq<PupilRecord>): Retina
  {
    if |pupils| >= 1 && |iris| >= 20 then Retina(true, Min(100, 2 * |iris|), iris[..Min(|iris|, 50)], pupils)
    else Retina(false, 0, [], pupils)
  }

  /** A detected retina has quality in [40, 100] and keeps exactly the first
      min(50, n) of its n features; an undetected one has quality 0 and no
      patterns. */
  lemma RetinaMeaning(iris: seq<real>, pupils: seq<PupilRecord>)
    ensures var r := RetinaOf(iris, pupils);
      && (r.detected <==> |pupils| >= 1 && |iris| >= 20)
      && (r.detected ==> 40 <= r.quality <= 100 && |r.irisPatterns| == Min(|iris|, 50) &&
                          r.irisPatterns == iris[..|r.irisPatterns|])
      && (!r.detected ==> r.quality == 0 && r.irisPatterns == [])
  {
  }

  /** Each pupil record comes from an eye whose pupil radius exceeds 3, and
      every collected feature lies in [0, 1]. */
  lemma {:induction false} CollectedMeaning(scans: seq<EyeScan>)
    requires forall k :: 0 <= k < |scans| ==> ScanWellFormed(scans[k])
    ensures var c := Collected(scans);
      && |c.1| <= |scans|
      && |c.0| <= 128 * |c.1|
      && (forall k :: 0 <= k < |c.1| ==> c.1[k].radius > 3.0)
      && (forall k :: 0 <= k < |c.0| ==> 0.0 <= c.0[k] <= 1.0)
  {
    if |scans| > 0 {
      var init := scans[..|scans| - 1];
      CollectedMeaning(init);
      var s := scans[|scans| - 1];
      if !(s.roiEmpty || s.pupil.None? || s.radius <= 3.0) {
        IrisFeaturesMeaning(s.resized, 32, 64, s.pupil.value.x, s.pupil.value.y, s.ring);
      }
    }
  }

  /** `analyze_retina_patterns`. */
  method AnalyzeRetinaPatterns(scans: seq<EyeScan>) returns (r: Retina)
    requires forall k :: 0 <= k < |scans| ==> ScanWellFormed(scans[k])
    ensures r == RetinaOf(Collected(scans).0, Collected(scans).1)
  {
    var iris: seq<real> := [];
    var pupils: seq<PupilRecord> := [];
    for k := 0 to |scans|
      invariant (iris, pupils) == Collected(scans[..k])
    {
      var s := scans[k];
      assert scans[..k + 1][..k] == scans[..k];
      if !s.roiEmpty && s.pupil.Some? && s.radius > 3.0 {
        var f := ExtractIrisFeatures(s.resized, 32, 64, s.pupil.value.x, s.pupil.value.y, s.ring);
        if |f| > 0 {
          iris := iris + f;
          pupils := pupils + [PupilRecord(s.pupil.value, s.radius, s.eye.x, s.eye.y)];
        }
      }
    }
    assert scans[..|scans|] == scans;
    if |pupils| >= 1 && |iris| >= 20 {
      r := Retina(true, Min(100, |iris| * 2), iris[..Min(|iris|, 50)], pupils);
    } else {
      r := Retina(false, 0, [], pupils);
    }
  }

  // ---------------------------------------------------------------------
  // Quality, symmetry and eye geometry
  // ---------------------------------------------------------------------

  function RMin(a: real, b: real): real { if a <= b then a else b }

  function RMax(a: real, b: real): real { if a <= b then b else a }

  function Abs(a: real): real { if a < 0.0 then -a else a }

  function SharpnessScore(sharpness: real): (r: real)
    ensures r <= 100.0 && (sharpness >= 0.0 ==> r >= 0.0)
  {
    RMin(100.0, sharpness / 10.0)
  }

  /** Full marks on [80, 180]; elsewhere 100 - 2|b - 130|, floored at 0. */
  function BrightnessScore(brightness: real): (r: real)
    ensures 0.0 <= r <= 100.0
    ensures 80.0 <= brightness <= 180.0 ==> r == 100.0
  {
    if 80.0 <= brightness <= 180.0 then 100.0 else RMax(0.0, 100.0 - Abs(brightness - 130.0) * 2.0)
  }

  function ContrastScore(contrast: real): (r: real)
    ensures r <= 100.0 && (contrast >= 0.0 ==> r >= 0.0)
  {
    RMin(100.0, contrast * 2.0)
  }

  function SizeScore(h: nat, w: nat): (r: real)
    ensures 0.0 <= r <= 100.0
  {
    RMin(100.0, (w * h) as real / 200.0)
  }

  /** `calculate_face_quality` from the Laplacian variance, the mean and the
      standard deviation of the face region and its size. */
  function FaceQuality(sharpness: real, brightness: real, contrast: real, h: nat, w: nat): (q: real)
  {
    SharpnessScore(sharpness) * 0.4 + BrightnessScore(brightness) * 0.3 +
    ContrastScore(contrast) * 0.2 + SizeScore(h, w) * 0.1
  }

  /** The weighted score never exceeds 100, and with a non-negative variance
      and deviation (as they always are) it is not negative either. */
  lemma FaceQualityRange(sharpness: real, brightness: real, contrast: real, h: nat, w: nat)
    ensures FaceQuality(sharpness, brightness, contrast, h, w) <= 100.0
    ensures sharpness >= 0.0 && contrast >= 0.0 ==> FaceQuality(sharpness, brightness, contrast, h, w) >= 0.0
  {
  }

  /** The quality reported by `detect_face_landmarks`: a score under 30 is
      raised to 50. */
  function ReportedQuality(q: real): (r: real)
    ensures r >= 30.0
    ensures q >= 30.0 ==> r == q
    ensures q < 30.0 ==> r == 50.0
  {
    if q < 30.0 then RMax(q, 50.0) else q
  }

  function AbsInt(a: int): nat { if a < 0 then -a else a }

  /** The summed differences between row `r`'s first `n` pixels and their
      mirror images from the right. */
  function RowMirrorSum(face: Gray, h: nat, w: nat, r: nat, n: nat): (s: nat)
    requires IsImage(face, h, w) && r < h && n <= w / 2
    ensures s <= 255 * n
  {
    if n == 0 then 0
    else RowMirrorSum(face, h, w, r, n - 1) + AbsInt(face[r][n - 1] - face[r][w - n])
  }

  function MirrorSum(face: Gray, h: nat, w: nat, rows: nat): nat
    requires IsImage(face, h, w) && rows <= h
  {
    if rows == 0 then 0 else MirrorSum(face, h, w, rows - 1) + RowMirrorSum(face, h, w, rows - 1, w / 2)
  }

  lemma {:induction false} MirrorSumBound(face: Gray, h: nat, w: nat, rows: nat)
    requires IsImage(face, h, w) && rows <= h
    ensures MirrorSum(face, h, w, rows) <= 255 * (rows * (w / 2))
  {
    if rows > 0 {
      MirrorSumBound(face, h, w, rows - 1);
      var n := w / 2;
      assert (rows - 1) * n + n == rows * n;
    }
  }

  /** `calculate_face_symmetry`: 100 less the mean mirror difference as a
      percentage of 255, floored at 0. Python's `max(0, nan)` is 0, so a
      face narrower than two pixels scores 0. */
  function Symmetry(face: Gray, h: nat, w: nat): real
    requires IsImage(face, h, w)
  {
    var count := h * (w / 2);
    if count == 0 then 0.0
    else RMax(0.0, 100.0 - (MirrorSum(face, h, w, h) as real / count as real) / 255.0 * 100.0)
  }

  lemma MeanBound(sum: nat, count: nat)
    requires count > 0 && sum <= 255 * count
    ensures sum as real / count as real <= 255.0
  {
    assert (sum as real) <= 255.0 * (count as real);
  }

  /** The score lies in [0, 100], and a mirror-symmetric face scores 100. */
  lemma SymmetryMeaning(face: Gray, h: nat, w: nat)
    requires IsImage(face, h, w)
    ensures 0.0 <= Symmetry(face, h, w) <= 100.0
    ensures h * (w / 2) > 0 && (forall r, c :: 0 <= r < h && 0 <= c < w ==> face[r][c] == face[r][w - 1 - c])
      ==> Symmetry(face, h, w) == 100.0
  {
    var count := h * (w / 2);
    if count > 0 {
      MirrorSumBound(face, h, w, h);
      MeanBound(MirrorSum(face, h, w, h), count);
      if forall r, c :: 0 <= r < h && 0 <= c < w ==> face[r][c] == face[r][w - 1 - c] {
        MirrorSumSymmetric(face, h, w, h);
      }
    }
  }

  /** The `symmetry_score` of the registration services: 100 less the
      mean mirror difference as a percentage of 255, with no floor. The
      mean over no pixel (a face narrower than two pixels) is NaN, here
      `None`. */
  function MirrorScore(face: Gray, h: nat, w: nat): (score: Option<real>)
    requires IsImage(face, h, w)
    ensures score.None? <==> h * (w / 2) == 0
  {
    var count := h * (w / 2);
    if count == 0 then None
    else Some(100.0 - (MirrorSum(face, h, w, h) as real / count as real) / 255.0 * 100.0)
  }

  /** Where it is a number, the score lies in [0, 100], agrees with
      `calculate_face_symmetry` (whose floor never applies) and is 100 for
      a mirror-symmetric face. */
  lemma MirrorScoreMeaning(face: Gray, h: nat, w: nat)
    requires IsImage(face, h, w)
    ensures MirrorScore(face, h, w).Some? ==>
      && 0.0 <= MirrorScore(face, h, w).value <= 100.0
      && MirrorScore(face, h, w).value == Symmetry(face, h, w)
    ensures MirrorScore(face, h, w).Some? && (forall r, c :: 0 <= r < h && 0 <= c < w ==> face[r][c] == face[r][w - 1 - c])
      ==> MirrorScore(face, h, w).value == 100.0
  {
    var count := h * (w / 2);
    if count > 0 {
      MirrorSumBound(face, h, w, h);
      MeanBound(MirrorSum(face, h, w, h), count);
      if forall r, c :: 0 <= r < h && 0 <= c < w ==> face[r][c] == face[r][w - 1 - c] {
        MirrorSumSymmetric(face, h, w, h);
      }
    }
  }

  lemma {:induction false} MirrorSumSymmetric(face: Gray, h: nat, w: nat, rows: nat)
    requires IsImage(face, h, w) && rows <= h
    requires forall r, c :: 0 <= r < h && 0 <= c < w ==> face[r][c] == face[r][w - 1 - c]
    ensures MirrorSum(face, h, w, rows) == 0
  {
    if rows > 0 {
      MirrorSumSymmetric(face, h, w, rows - 1);
      RowMirrorSumSymmetric(face, h, w, rows - 1, w / 2);
    }
  }

  lemma {:induction false} RowMirrorSumSymmetric(face: Gray, h: nat, w: nat, r: nat, n: nat)
    requires IsImage(face, h, w) && r < h && n <= w / 2
    requires forall c :: 0 <= c < w ==> face[r][c] == face[r][w - 1 - c]
    ensures RowMirrorSum(face, h, w, r, n) == 0
  {
    if n > 0 {
      RowMirrorSumSymmetric(face, h, w, r, n - 1);
      assert face[r][n - 1] == face[r][w - 1 - (n - 1)];
    }
  }

  /** The index of the first box of largest area, skipping index `skip`
      (`max(boxes, key=area)` when nothing is skipped). */
  function LargestBox(eyes: seq<Box>, skip: int): (k: nat)
    requires |eyes| >= 2 || (|eyes| >= 1 && !(0 <= skip < |eyes|))
    ensures k < |eyes| && k != skip
    ensures forall k' :: 0 <= k' < |eyes| && k' != skip ==> Area(eyes[k']) <= Area(eyes[k])
    ensures forall k' :: 0 <= k' < k && k' != skip ==> Area(eyes[k']) < Area(eyes[k])
    decreases |eyes|
  {
    var n := |eyes|;
    if n - 1 == skip then LargestBox(eyes[..n - 1], -1)
    else if n == 1 || (n == 2 && skip == 0) then n - 1
    else
      var k := LargestBox(eyes[..n - 1], skip);
      if Area(eyes[n - 1]) > Area(eyes[k]) then n - 1 else k
  }

  function Center(b: Box): Point
  {
    Point(b.x + b.width / 2, b.y + b.height / 2)
  }

  /** The centres of the two largest eyes, larger first, as
      `sorted(eyes, key=area, reverse=True)[:2]` picks them; none with fewer
      than two eyes. */
  function EyePair(eyes: seq<Box>): Option<(Point, Point)>
  {
    if |eyes| < 2 then None
    else
      var a := LargestBox(eyes, -1);
      var b := LargestBox(eyes, a);
      Some((Center(eyes[a]), Center(eyes[b])))
  }

  /** `a` and `b` are distinct eyes, `a` the first of largest area and `b`
      the first of largest area among the others, as a stable sort in
      decreasing area orders them. */
  predicate TopTwo(eyes: seq<Box>, a: int, b: int)
  {
    && 0 <= a < |eyes| && 0 <= b < |eyes| && a != b
    && (forall k :: 0 <= k < |eyes| ==> Area(eyes[k]) <= Area(eyes[a]))
    && (forall k :: 0 <= k < a ==> Area(eyes[k]) < Area(eyes[a]))
    && (forall k :: 0 <= k < |eyes| && k != a ==> Area(eyes[k]) <= Area(eyes[b]))
    && (forall k :: 0 <= k < b && k != a ==> Area(eyes[k]) < Area(eyes[b]))
  }

  /** With two or more eyes the pair is the centres of the two largest eyes,
      ties going to the earlier one; with fewer there is none. */
  lemma EyePairMeaning(eyes: seq<Box>)
    ensures EyePair(eyes).None? <==> |eyes| < 2
    ensures |eyes| >= 2 ==>
      exists a, b :: TopTwo(eyes, a, b) && EyePair(eyes) == Some((Center(eyes[a]), Center(eyes[b])))
  {
    if |eyes| >= 2 {
      var a := LargestBox(eyes, -1);
      var b := LargestBox(eyes, a);
      assert TopTwo(eyes, a, b);
      assert EyePair(eyes) == Some((Center(eyes[a]), Center(eyes[b])));
    }
  }

  /** The squared eye distance of `calculate_eye_distance` (its square
      root is not modelled); 0 with fewer than two eyes. */
  function EyeDistanceSquared(eyes: seq<Box>): (d: nat)
    ensures |eyes| < 2 ==> d == 0
  {
    match EyePair(eyes)
    case None => 0
    case Some((p, q)) => (q.x - p.x) * (q.x - p.x) + (q.y - p.y) * (q.y - p.y)
  }

  // ---------------------------------------------------------------------
  // detect_face_landmarks
  // ---------------------------------------------------------------------

  /** What the detectors and image statistics report for one photo: the
      faces found, the eyes found in the face, one scan per eye, the number
      of smiles, the face region and its Laplacian variance, mean and
      standard deviation. */
  datatype Observation = Observation(
    faces: seq<Box>, eyes: seq<Box>, scans: seq<EyeScan>, smiles: nat,
    face: Gray, faceH: nat, faceW: nat,
    sharpness: real, brightness: real, contrast: real)

  predicate ObservationWellFormed(o: Observation)
  {
    IsImage(o.face, o.faceH, o.faceW) && |o.scans| == |o.eyes| &&
    forall k :: 0 <= k < |o.scans| ==> ScanWellFormed(o.scans[k]) && o.scans[k].eye == o.eyes[k]
  }

  datatype FaceData = FaceData(
    faceBox: Box, eyes: seq<Box>, eyeCount: nat, hasSmile: bool, faceArea: int,
    quality: real, symmetry: real, eyePair: Option<(Point, Point)>, retina: Retina)

  datatype Capture = Rejected(message: string) | Captured(data: FaceData)

  const NoFaceMessage := "No face detected"
  const MultipleFacesMessage := "Multiple faces detected - use single person photo"

  /** The retina scan is optional: without eyes a stand-in marked detected
      with quality 50 and no patterns is reported. */
  function RetinaFor(o: Observation): Retina
    requires ObservationWellFormed(o)
  {
    if |o.eyes| >= 1 then
      var c := Collected(o.scans);
      RetinaOf(c.0, c.1)
    else Retina(true, 50, [], [])
  }

  /** `detect_face_landmarks`. */
  function DetectFaceLandmarks(o: Observation): Capture
    requires ObservationWellFormed(o)
  {
    if |o.faces| == 0 then Rejected(NoFaceMessage)
    else if |o.faces| > 1 then Rejected(MultipleFacesMessage)
    else
      var b := o.faces[0];
      Captured(FaceData(
        b, o.eyes, |o.eyes|, o.smiles > 0, b.width * b.height,
        ReportedQuality(FaceQuality(o.sharpness, o.brightness, o.contrast, o.faceH, o.faceW)),
        Symmetry(o.face, o.faceH, o.faceW), EyePair(o.eyes), RetinaFor(o)))
  }

  /** Exactly one face is captured; the reported quality is at least 30 and
      at most 100 and the symmetry in [0, 100]; the eye count is the number
      of eyes found. */
  lemma DetectFaceLandmarksMeaning(o: Observation)
    requires ObservationWellFormed(o)
    ensures var c := DetectFaceLandmarks(o);
      && (|o.faces| == 0 <==> c == Rejected(NoFaceMessage))
      && (|o.faces| > 1 <==> c == Rejected(MultipleFacesMessage))
      && (|o.faces| == 1 <==> c.Captured?)
      && (c.Captured? ==>
            && c.data.faceBox == o.faces[0]
            && c.data.eyeCount == |o.eyes|
            && 30.0 <= c.data.quality
            && (o.sharpness >= 0.0 && o.contrast >= 0.0 ==> c.data.quality <= 100.0)
            && 0.0 <= c.data.symmetry <= 100.0
            && (|o.eyes| == 0 ==> c.data.retina.detected))
  {
    FaceQualityRange(o.sharpness, o.brightness, o.contrast, o.faceH, o.faceW);
    SymmetryMeaning(o.face, o.faceH, o.faceW);
  }
}
