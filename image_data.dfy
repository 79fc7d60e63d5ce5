/** What the two registration services (`perfect_biometric_service.py` and
    `enhanced_biometric_service.py`) share: reading the payload out of a
    data URL, cropping the face region, sampling 24 points of each eye for
    the iris pattern, and padding a short sample list by repeating its
    front. */
module ImageData {
  import opened Common
  import opened BiometricCapture

  // ---------------------------------------------------------------------
  // decode_image: the data-URL prefix
  // ---------------------------------------------------------------------

  /** The text handed to the base64 decoder: when the input holds a comma,
      the field between the first comma and the next one
      (`image_data.split(',')[1]`); otherwise the whole input. */
  function StripDataUrl(data: string): (payload: string)
    ensures ',' !in payload
    ensures ',' !in data ==> payload == data
  {
    if ',' in data then
      SplitLength(data, ',');
      CommaCounted(data);
      Split(data, ',')[1]
    else data
  }

  lemma {:induction false} CommaCounted(s: string)
    requires ',' in s
    ensures CountChar(s, ',') >= 1
  {
    if s[0] != ',' {
      assert ',' in s[1..];
      CommaCounted(s[1..]);
    }
  }

  /** A data URL `header,payload` decodes its payload, and so does one with
      further comma-separated fields after the payload. */
  lemma StripDataUrlOfDataUrl(header: string, payload: string, rest: string)
    requires ',' !in header && ',' !in payload
    ensures StripDataUrl(header + "," + payload) == payload
    ensures StripDataUrl(header + "," + payload + "," + rest) == payload
  {
    SplitAtSeparator(header, ',', payload);
    SplitNoSeparator(payload, ',');
    assert header + "," + payload == header + [','] + payload;
    assert ',' in header + "," + payload by {
      assert (header + "," + payload)[|header|] == ',';
    }
    var long := header + "," + payload + "," + rest;
    assert long == header + [','] + (payload + [','] + rest);
    assert long[|header|] == ',';
    SplitAtSeparator(header, ',', payload + [','] + rest);
    SplitAtSeparator(payload, ',', rest);
  }

  /** Stripping is idempotent: a payload has no comma left to strip at. */
  lemma StripDataUrlIdempotent(data: string)
    ensures StripDataUrl(StripDataUrl(data)) == StripDataUrl(data)
  {
  }

  // ---------------------------------------------------------------------
  // Regions
  // ---------------------------------------------------------------------

  predicate NonNegative(b: Box)
  {
    0 <= b.x && 0 <= b.y && 0 <= b.width && 0 <= b.height
  }

  /** `b` lies within an image of `h` rows and `w` columns. */
  predicate Inside(b: Box, h: nat, w: nat)
  {
    NonNegative(b) && b.x + b.width <= w && b.y + b.height <= h
  }

  /** `img[y:y+height, x:x+width]` for a box inside the image. */
  function Crop(img: Gray, h: nat, w: nat, b: Box): (roi: Gray)
    requires IsImage(img, h, w) && Inside(b, h, w)
    ensures IsImage(roi, b.height, b.width)
    ensures forall i, j :: 0 <= i < b.height && 0 <= j < b.width ==> roi[i][j] == img[b.y + i][b.x + j]
  {
    seq(b.height, i requires 0 <= i < b.height => img[b.y + i][b.x .. b.x + b.width])
  }

  /** `roi.flatten()` scaled by 1/255: the pixels row by row. */
  function Flatten(roi: Gray, rows: nat, cols: nat): (fs: seq<real>)
    requires IsImage(roi, rows, cols)
    ensures |fs| == rows * cols
    ensures forall k :: 0 <= k < |fs| ==> 0.0 <= fs[k] <= 1.0
    decreases rows
  {
    if rows == 0 then []
    else
      var prev := Flatten(roi[..rows - 1], rows - 1, cols);
      var row := roi[rows - 1];
      prev + seq(cols, j requires 0 <= j < cols => row[j] as real / 255.0)
  }

  /** Row-major order: entry `i * cols + j` is pixel `(i, j)`. */
  lemma {:induction false} FlattenOrder(roi: Gray, rows: nat, cols: nat, i: nat, j: nat)
    requires IsImage(roi, rows, cols) && i < rows && j < cols
    ensures i * cols + j < rows * cols
    ensures Flatten(roi, rows, cols)[i * cols + j] == roi[i][j] as real / 255.0
    decreases rows
  {
    assert i * cols + j < (i + 1) * cols <= rows * cols;
    if i < rows - 1 {
      FlattenOrder(roi[..rows - 1], rows - 1, cols, i, j);
    }
  }

  // ---------------------------------------------------------------------
  // Iris sampling: 24 points on an ellipse around each eye centre
  // ---------------------------------------------------------------------

  /** The cosines and sines of the angles 0, 15, ..., 345 degrees
      (`range(0, 360, 15)`); the trigonometry itself is not modelled, only
      that there are 24 pairs of values in [-1, 1]. */
  predicate UnitCircle(trig: seq<(real, real)>)
  {
    |trig| == 24 && forall k :: 0 <= k < |trig| ==> -1.0 <= trig[k].0 <= 1.0 && -1.0 <= trig[k].1 <= 1.0
  }

  /** Python's `int()` on a float: truncation toward zero. */
  function Trunc(v: real): int
  {
    if v >= 0.0 then v.Floor else -((-v).Floor)
  }

  /** The sampled point of an eye region for one angle, relative to the
      region: `(ew//2 + (ew//4) cos a, eh//2 + (eh//4) sin a)` truncated. */
  function SamplePoint(e: Box, c: (real, real)): Point
  {
    Point(Offset(e.width, c.0), Offset(e.height, c.1))
  }

  /** `int(n//2 + (n//4) * c)`: one coordinate of a sampled point. */
  function Offset(n: int, c: real): int
  {
    Trunc((n / 2) as real + RingOffset((n / 4) as real, c))
  }

  /** `q * c`; a cosine or sine scaled by `q >= 0` stays within `q`. */
  function RingOffset(q: real, c: real): (r: real)
    ensures 0.0 <= q && -1.0 <= c <= 1.0 ==> -q <= r <= q
  {
    if 0.0 <= q && -1.0 <= c <= 1.0 then ScaledUnit(q, c); q * c
    else q * c
  }

  /** The eye region lies within the face region (the source's only test). */
  predicate Fits(e: Box, rh: nat, rw: nat)
  {
    e.x + e.width <= rw && e.y + e.height <= rh
  }

  /** The samples of the first `n` angles of one fitting eye: the pixel at
      each in-bounds point, scaled by 1/255. */
  function AngleSamples(roi: Gray, rh: nat, rw: nat, e: Box, trig: seq<(real, real)>, n: nat): (fs: seq<real>)
    requires IsImage(roi, rh, rw) && NonNegative(e) && Fits(e, rh, rw) && n <= |trig|
    ensures |fs| <= n
    ensures forall k :: 0 <= k < |fs| ==> 0.0 <= fs[k] <= 1.0
  {
    if n == 0 then []
    else
      var prev := AngleSamples(roi, rh, rw, e, trig, n - 1);
      var p := SamplePoint(e, trig[n - 1]);
      if 0 <= p.x < e.width && 0 <= p.y < e.height then prev + [roi[e.y + p.y][e.x + p.x] as real / 255.0]
      else prev
  }

  function EyeSamples(roi: Gray, rh: nat, rw: nat, e: Box, trig: seq<(real, real)>): (fs: seq<real>)
    requires IsImage(roi, rh, rw) && NonNegative(e)
    ensures |fs| <= |trig|
    ensures forall k :: 0 <= k < |fs| ==> 0.0 <= fs[k] <= 1.0
  {
    if Fits(e, rh, rw) then AngleSamples(roi, rh, rw, e, trig, |trig|) else []
  }

  predicate AllNonNegative(eyes: seq<Box>)
  {
    forall k :: 0 <= k < |eyes| ==> NonNegative(eyes[k])
  }

  /** The iris samples of the given eyes, eye after eye. */
  function IrisSamples(roi: Gray, rh: nat, rw: nat, eyes: seq<Box>, trig: seq<(real, real)>): (fs: seq<real>)
    requires IsImage(roi, rh, rw) && AllNonNegative(eyes)
    ensures forall k :: 0 <= k < |fs| ==> 0.0 <= fs[k] <= 1.0
  {
    if |eyes| == 0 then []
    else
      var n := |eyes| - 1;
      IrisSamples(roi, rh, rw, eyes[..n], trig) + EyeSamples(roi, rh, rw, eyes[n], trig)
  }

  /** An eye whose 24 points are all sampled: it fits and is not empty. */
  predicate Sampled(e: Box, rh: nat, rw: nat)
  {
    Fits(e, rh, rw) && e.width >= 1 && e.height >= 1
  }

  function SampledCount(eyes: seq<Box>, rh: nat, rw: nat): nat
  {
    if |eyes| == 0 then 0
    else SampledCount(eyes[..|eyes| - 1], rh, rw) + (if Sampled(eyes[|eyes| - 1], rh, rw) then 1 else 0)
  }

  /** A product of non-negative reals is non-negative. */
  lemma MulNonNegative(a: real, b: real)
    requires a >= 0.0 && b >= 0.0
    ensures a * b >= 0.0
  {
  }

  /** A scaled cosine or sine stays within the scale. */
  lemma ScaledUnit(q: real, c: real)
    requires 0.0 <= q && -1.0 <= c <= 1.0
    ensures -q <= q * c <= q
  {
    MulNonNegative(q, 1.0 - c);
    assert q * (1.0 - c) == q - q * c;
    MulNonNegative(q, 1.0 + c);
    assert q * (1.0 + c) == q + q * c;
  }

  /** Truncating a non-negative value between two integers stays between
      them. */
  lemma TruncBetween(v: real, lo: int, hi: int)
    requires 0 <= lo && lo as real <= v <= hi as real
    ensures lo <= Trunc(v) <= hi
  {
    assert Trunc(v) == v.Floor;
  }

  /** Truncating a point of `[centre - q, centre + q]` stays in it. */
  lemma TruncWithin(centre: int, q: int, c: real)
    requires 0 <= q <= centre && -1.0 <= c <= 1.0
    ensures centre - q <= Trunc(centre as real + RingOffset(q as real, c)) <= centre + q
  {
    var v := centre as real + RingOffset(q as real, c);
    assert (centre - q) as real <= v <= (centre + q) as real;
    TruncBetween(v, centre - q, centre + q);
  }

  /** One coordinate of a sampled point of a non-empty region is in
      bounds: `n//2 - n//4 >= 0` and `n//2 + n//4 < n`. */
  lemma CoordinateInside(n: int, c: real)
    requires n >= 1 && -1.0 <= c <= 1.0
    ensures 0 <= Offset(n, c) < n
  {
    var centre, q := n / 2, n / 4;
    assert 0 <= q <= centre && centre + q < n;
    TruncWithin(centre, q, c);
    assert 0 <= Trunc(centre as real + RingOffset(q as real, c)) < n;
  }

  /** Every one of the 24 points of a non-empty eye is in bounds. */
  lemma SamplePointInside(e: Box, c: (real, real))
    requires e.width >= 1 && e.height >= 1
    requires -1.0 <= c.0 <= 1.0 && -1.0 <= c.1 <= 1.0
    ensures var p := SamplePoint(e, c); 0 <= p.x < e.width && 0 <= p.y < e.height
  {
    CoordinateInside(e.width, c.0);
    CoordinateInside(e.height, c.1);
  }

  lemma {:induction false} AngleSamplesCount(roi: Gray, rh: nat, rw: nat, e: Box, trig: seq<(real, real)>, n: nat)
    requires IsImage(roi, rh, rw) && NonNegative(e) && Fits(e, rh, rw) && n <= |trig|
    requires UnitCircle(trig)
    ensures |AngleSamples(roi, rh, rw, e, trig, n)| == (if e.width >= 1 && e.height >= 1 then n else 0)
  {
    if n > 0 {
      AngleSamplesCount(roi, rh, rw, e, trig, n - 1);
      if e.width >= 1 && e.height >= 1 {
        SamplePointInside(e, trig[n - 1]);
      }
    }
  }

  /** Each eye that fits and is not empty contributes exactly 24 samples,
      every other eye none. */
  lemma {:induction false} IrisSamplesCount(roi: Gray, rh: nat, rw: nat, eyes: seq<Box>, trig: seq<(real, real)>)
    requires IsImage(roi, rh, rw) && AllNonNegative(eyes) && UnitCircle(trig)
    ensures |IrisSamples(roi, rh, rw, eyes, trig)| == 24 * SampledCount(eyes, rh, rw)
  {
    if |eyes| > 0 {
      var n := |eyes| - 1;
      IrisSamplesCount(roi, rh, rw, eyes[..n], trig);
      if Fits(eyes[n], rh, rw) {
        AngleSamplesCount(roi, rh, rw, eyes[n], trig, 24);
      }
    }
  }

  /** One more angle samples the pixel at its point, when that point lies
      in the eye. */
  lemma AngleSamplesNext(roi: Gray, rh: nat, rw: nat, e: Box, trig: seq<(real, real)>, k: nat)
    requires IsImage(roi, rh, rw) && NonNegative(e) && Fits(e, rh, rw) && k < |trig|
    ensures var p := SamplePoint(e, trig[k]);
      && (0 <= p.x < e.width && 0 <= p.y < e.height ==>
            AngleSamples(roi, rh, rw, e, trig, k + 1) == AngleSamples(roi, rh, rw, e, trig, k) + [roi[e.y + p.y][e.x + p.x] as real / 255.0])
      && (!(0 <= p.x < e.width && 0 <= p.y < e.height) ==>
            AngleSamples(roi, rh, rw, e, trig, k + 1) == AngleSamples(roi, rh, rw, e, trig, k))
  {
  }

  /** The inner loop over the 24 angles of one eye. */
  method SampleEye(roi: Gray, rh: nat, rw: nat, e: Box, trig: seq<(real, real)>) returns (fs: seq<real>)
    requires IsImage(roi, rh, rw) && NonNegative(e)
    ensures fs == EyeSamples(roi, rh, rw, e, trig)
  {
    fs := [];
    if e.x + e.width <= rw && e.y + e.height <= rh {
      for k := 0 to |trig|
        invariant fs == AngleSamples(roi, rh, rw, e, trig, k)
      {
        var p := SamplePoint(e, trig[k]);
        AngleSamplesNext(roi, rh, rw, e, trig, k);
        if 0 <= p.x < e.width && 0 <= p.y < e.height {
          fs := fs + [roi[e.y + p.y][e.x + p.x] as real / 255.0];
        }
      }
    }
  }

  /** The loop over the kept eyes of `extract_real_retina_data` and
      `simulate_retina_scan`. */
  method SampleIris(roi: Gray, rh: nat, rw: nat, eyes: seq<Box>, trig: seq<(real, real)>) returns (fs: seq<real>)
    requires IsImage(roi, rh, rw) && AllNonNegative(eyes)
    ensures fs == IrisSamples(roi, rh, rw, eyes, trig)
  {
    fs := [];
    for i := 0 to |eyes|
      invariant fs == IrisSamples(roi, rh, rw, eyes[..i], trig)
    {
      assert eyes[..i + 1][..i] == eyes[..i];
      var s := SampleEye(roi, rh, rw, eyes[i], trig);
      fs := fs + s;
    }
    assert eyes[..|eyes|] == eyes;
  }

  function PupilOf(e: Box): PupilRecord
  {
    PupilRecord(Point(e.width / 2, e.height / 2), 5.0, e.x, e.y)
  }

  /** The pupil records of `extract_real_retina_data` and
      `simulate_retina_scan`: one per eye, in order. */
  method PupilData(eyes: seq<Box>) returns (ps: seq<PupilRecord>)
    ensures |ps| == |eyes|
    ensures forall k :: 0 <= k < |eyes| ==> ps[k] == PupilOf(eyes[k]) && ps[k].radius == 5.0
  {
    ps := [];
    for i := 0 to |eyes|
      invariant |ps| == i
      invariant forall k :: 0 <= k < i ==> ps[k] == PupilOf(eyes[k])
    {
      ps := ps + [PupilOf(eyes[i])];
    }
  }

  /** The squared distance between the centres of the first two eyes (the
      square root is not modelled); 0 with fewer than two eyes. */
  function FirstPairDistanceSquared(eyes: seq<Box>): (d: nat)
    ensures |eyes| < 2 ==> d == 0
  {
    if |eyes| < 2 then 0
    else
      var p, q := Center(eyes[0]), Center(eyes[1]);
      (p.x - q.x) * (p.x - q.x) + (p.y - q.y) * (p.y - q.y)
  }

  // ---------------------------------------------------------------------
  // Padding by repeating the front of the list
  // ---------------------------------------------------------------------

  /** `while len(xs) < target: xs.extend(xs[:min(chunk, target - len(xs))])`
      with the guard an empty list needs: an empty list is left empty. */
  function Repeated(xs: seq<real>, target: nat, chunk: nat): seq<real>
    requires chunk >= 1
    decreases target - |xs|
  {
    if |xs| == 0 || |xs| >= target then xs
    else Repeated(xs + Take(xs, Min(chunk, target - |xs|)), target, chunk)
  }

  /** Padding keeps the list as its prefix, reaches exactly `target`
      entries without overshooting (or keeps a longer list whole), and only
      repeats entries of the list. */
  lemma {:induction false} RepeatedMeaning(xs: seq<real>, target: nat, chunk: nat)
    requires chunk >= 1
    ensures var r := Repeated(xs, target, chunk);
      && (|xs| == 0 ==> r == [])
      && (|xs| > 0 ==> |r| == Max(|xs|, target))
      && |xs| <= |r| && r[..|xs|] == xs
      && (forall k :: 0 <= k < |r| ==> r[k] in xs)
    decreases target - |xs|
  {
    if |xs| > 0 && |xs| < target {
      var ys := xs + Take(xs, Min(chunk, target - |xs|));
      RepeatedMeaning(ys, target, chunk);
      var r := Repeated(ys, target, chunk);
      assert r[..|xs|] == r[..|ys|][..|xs|];
      forall k | 0 <= k < |r|
        ensures r[k] in xs
      {
        assert r[k] in ys;
        var m :| 0 <= m < |ys| && ys[m] == r[k];
        if m >= |xs| {
          assert ys[m] == xs[m - |xs|];
        }
      }
    }
  }

  /** The padding loop, with the guard an empty list needs. */
  method PadByRepeating(xs: seq<real>, target: nat, chunk: nat) returns (r: seq<real>)
    requires chunk >= 1
    ensures r == Repeated(xs, target, chunk)
    ensures |xs| == 0 ==> r == []
    ensures |xs| > 0 ==> |r| == Max(|xs|, target) && r[..|xs|] == xs
  {
    r := xs;
    while 0 < |r| < target
      invariant Repeated(r, target, chunk) == Repeated(xs, target, chunk)
      invariant |xs| == 0 ==> r == []
      decreases target - |r|
    {
      r := r + Take(r, Min(chunk, target - |r|));
    }
    RepeatedMeaning(xs, target, chunk);
  }

  /** The padding loop exactly as written, without the guard, run for at
      most `fuel` rounds; `None` when it has not finished by then. */
  function PadLoopAsWritten(xs: seq<real>, target: nat, chunk: nat, fuel: nat): Option<seq<real>>
    decreases fuel
  {
    if |xs| >= target then Some(xs)
    else if fuel == 0 then None
    else PadLoopAsWritten(xs + Take(xs, Min(chunk, target - |xs|)), target, chunk, fuel - 1)
  }

  /** On an empty list the loop as written never finishes: extending by an
      empty slice leaves the list empty, round after round. */
  lemma {:induction false} PadLoopNeverEnds(target: nat, chunk: nat, fuel: nat)
    requires target > 0
    ensures PadLoopAsWritten([], target, chunk, fuel) == None
  {
    if fuel > 0 {
      var empty: seq<real> := [];
      assert empty + Take(empty, Min(chunk, target)) == empty;
      PadLoopNeverEnds(target, chunk, fuel - 1);
    }
  }

  /** On a non-empty list the loop as written and the guarded one agree. */
  lemma {:induction false} PadLoopAgrees(xs: seq<real>, target: nat, chunk: nat, fuel: nat)
    requires chunk >= 1 && |xs| > 0 && |xs| + fuel >= target
    ensures PadLoopAsWritten(xs, target, chunk, fuel) == Some(Repeated(xs, target, chunk))
    decreases fuel
  {
    if |xs| < target {
      PadLoopAgrees(xs + Take(xs, Min(chunk, target - |xs|)), target, chunk, fuel - 1);
    }
  }
}
