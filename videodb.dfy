/** Security clips kept in a VideoDB collection: the clip name
    `event_camera_YYYYMMDD_HHMMSS`, the search that filters names and reads
    the timestamp back, and the cleanup pass. Uploading and the video
    service itself are outside the model: an upload's outcome is a
    parameter and the collection is a field. */
module VideoDb {
  import opened Common

  datatype DateTime = DateTime(year: nat, month: nat, day: nat, hour: nat, minute: nat, second: nat)

  predicate IsLeap(y: nat)
  {
    (y % 4 == 0 && y % 100 != 0) || y % 400 == 0
  }

  function DaysInMonth(y: nat, m: nat): nat
  {
    if m == 2 then (if IsLeap(y) then 29 else 28)
    else if m == 4 || m == 6 || m == 9 || m == 11 then 30
    else 31
  }

  /** What Python's `datetime` constructor accepts. */
  predicate ValidDateTime(t: DateTime)
  {
    1 <= t.year <= 9999 && 1 <= t.month <= 12 && 1 <= t.day <= DaysInMonth(t.year, t.month) &&
    t.hour < 24 && t.minute < 60 && t.second < 60
  }

  /** `strftime("%Y%m%d_%H%M%S")`, for four-digit years. */
  function FormatStamp(t: DateTime): string
    requires ValidDateTime(t) && t.year >= 1000
  {
    Pad(t.year, 4) + Pad(t.month, 2) + Pad(t.day, 2) + "_" + Pad(t.hour, 2) + Pad(t.minute, 2) + Pad(t.second, 2)
  }

  /** The name `save_security_clip` gives a clip. */
  function ClipName(eventType: string, cameraId: string, t: DateTime): string
    requires ValidDateTime(t) && t.year >= 1000
  {
    eventType + "_" + cameraId + "_" + FormatStamp(t)
  }

  function ClipDescription(eventType: string, cameraId: string): string
  {
    "Security event: " + eventType + " from " + cameraId
  }

  // ---------------------------------------------------------------------
  // strptime(s, '%Y%m%d%H%M%S'): the fields are regular-expression
  // alternations matched left to right with backtracking; the first overall
  // match wins, and it must consume the whole string.
  // ---------------------------------------------------------------------

  datatype FieldKind = Year | Month | Day | Hour | Minute | Second

  datatype Piece = Piece(value: nat, width: nat)

  function AltCount(f: FieldKind): nat
  {
    match f
    case Year => 1
    case Month => 3
    case Day => 5
    case Hour => 3
    case Minute => 2
    case Second => 3
  }

  function Two(s: string): nat
    requires |s| >= 2 && IsDigit(s[0]) && IsDigit(s[1])
  {
    10 * DigitValue(s[0]) + DigitValue(s[1])
  }

  /** Alternative `a` of field `f` at the start of `s`:
      %Y `\d\d\d\d`; %m `1[0-2]|0[1-9]|[1-9]`;
      %d `3[01]|[12]\d|0[1-9]|[1-9]| [1-9]`; %H `2[0-3]|[0-1]\d|\d`;
      %M `[0-5]\d|\d`; %S `6[0-1]|[0-5]\d|\d`. */
  function AltMatch(f: FieldKind, a: nat, s: string): (p: Option<Piece>)
    ensures p.Some? ==> 1 <= p.value.width <= |s|
  {
    var d2 := |s| >= 2 && IsDigit(s[1]);
    match f
    case Year =>
      if a == 0 && |s| >= 4 && AllDigits(s[..4]) then Some(Piece(DigitsValue(s[..4]), 4)) else None
    case Month =>
      if a == 0 && d2 && s[0] == '1' && '0' <= s[1] <= '2' then Some(Piece(Two(s), 2))
      else if a == 1 && d2 && s[0] == '0' && '1' <= s[1] <= '9' then Some(Piece(Two(s), 2))
      else if a == 2 && |s| >= 1 && '1' <= s[0] <= '9' then Some(Piece(DigitValue(s[0]), 1))
      else None
    case Day =>
      if a == 0 && d2 && s[0] == '3' && '0' <= s[1] <= '1' then Some(Piece(Two(s), 2))
      else if a == 1 && d2 && '1' <= s[0] <= '2' then Some(Piece(Two(s), 2))
      else if a == 2 && d2 && s[0] == '0' && '1' <= s[1] <= '9' then Some(Piece(Two(s), 2))
      else if a == 3 && |s| >= 1 && '1' <= s[0] <= '9' then Some(Piece(DigitValue(s[0]), 1))
      else if a == 4 && |s| >= 2 && s[0] == ' ' && '1' <= s[1] <= '9' then Some(Piece(DigitValue(s[1]), 2))
      else None
    case Hour =>
      if a == 0 && d2 && s[0] == '2' && '0' <= s[1] <= '3' then Some(Piece(Two(s), 2))
      else if a == 1 && d2 && '0' <= s[0] <= '1' then Some(Piece(Two(s), 2))
      else if a == 2 && |s| >= 1 && IsDigit(s[0]) then Some(Piece(DigitValue(s[0]), 1))
      else None
    case Minute =>
      if a == 0 && d2 && '0' <= s[0] <= '5' then Some(Piece(Two(s), 2))
      else if a == 1 && |s| >= 1 && IsDigit(s[0]) then Some(Piece(DigitValue(s[0]), 1))
      else None
    case Second =>
      if a == 0 && d2 && s[0] == '6' && '0' <= s[1] <= '1' then Some(Piece(Two(s), 2))
      else if a == 1 && d2 && '0' <= s[0] <= '5' then Some(Piece(Two(s), 2))
      else if a == 2 && |s| >= 1 && IsDigit(s[0]) then Some(Piece(DigitValue(s[0]), 1))
      else None
  }

  /** The first match of the fields `fs` at the start of `s`, in the
      regular-expression engine's order: the field values and the number of
      characters consumed. */
  function MatchFields(fs: seq<FieldKind>, s: string): (r: Option<(seq<nat>, nat)>)
    ensures r.Some? ==> |r.value.0| == |fs| && r.value.1 <= |s|
    decreases |fs|, 6
  {
    if |fs| == 0 then Some(([], 0)) else TryAlt(fs, s, 0)
  }

  function TryAlt(fs: seq<FieldKind>, s: string, a: nat): (r: Option<(seq<nat>, nat)>)
    requires |fs| > 0
    ensures r.Some? ==> |r.value.0| == |fs| && r.value.1 <= |s|
    decreases |fs|, if a <= AltCount(fs[0]) then AltCount(fs[0]) - a else 0
  {
    if a >= AltCount(fs[0]) then None
    else
      match AltMatch(fs[0], a, s)
      case None => TryAlt(fs, s, a + 1)
      case Some(p) =>
        match MatchFields(fs[1..], s[p.width..])
        case None => TryAlt(fs, s, a + 1)
        case Some(rest) => Some(([p.value] + rest.0, p.width + rest.1))
  }

  const StampFields: seq<FieldKind> := [Year, Month, Day, Hour, Minute, Second]

  /** `datetime.strptime(s, '%Y%m%d%H%M%S')`; `None` where it raises. */
  function ParseStamp(s: string): (t: Option<DateTime>)
    ensures t.Some? ==> ValidDateTime(t.value)
  {
    match MatchFields(StampFields, s)
    case None => None
    case Some(r) =>
      var v := r.0;
      var t := DateTime(v[0], v[1], v[2], v[3], v[4], v[5]);
      if r.1 == |s| && ValidDateTime(t) then Some(t) else None
  }

  /** The first alternative that matches, followed by a match of the rest,
      decides the match. */
  lemma {:induction false} TryAltFirst(fs: seq<FieldKind>, s: string, a: nat, b: nat, p: Piece, rest: (seq<nat>, nat))
    requires |fs| > 0 && a <= b < AltCount(fs[0])
    requires forall a' :: a <= a' < b ==> AltMatch(fs[0], a', s).None?
    requires AltMatch(fs[0], b, s) == Some(p)
    requires MatchFields(fs[1..], s[p.width..]) == Some(rest)
    ensures TryAlt(fs, s, a) == Some(([p.value] + rest.0, p.width + rest.1))
    decreases b - a
  {
    if a < b {
      TryAltFirst(fs, s, a + 1, b, p, rest);
    }
  }

  lemma PadTwoDigits(n: nat)
    requires n < 100
    ensures |Pad(n, 2)| == 2
    ensures Pad(n, 2)[0] == ('0' as int + n / 10) as char && Pad(n, 2)[1] == ('0' as int + n % 10) as char
    ensures IsDigit(Pad(n, 2)[0]) && IsDigit(Pad(n, 2)[1]) && Two(Pad(n, 2)) == n
  {
  }

  /** The canonical two-digit field `Pad(n, 2)` followed by a match of the
      remaining fields. */
  lemma MatchTwoDigitField(fs: seq<FieldKind>, n: nat, rest: string, r: (seq<nat>, nat))
    requires |fs| > 0 && fs[0] != Year
    requires fs[0] == Month ==> 1 <= n <= 12
    requires fs[0] == Day ==> 1 <= n <= 31
    requires fs[0] == Hour ==> n < 24
    requires fs[0] == Minute || fs[0] == Second ==> n < 60
    requires MatchFields(fs[1..], rest) == Some(r)
    ensures MatchFields(fs, Pad(n, 2) + rest) == Some(([n] + r.0, 2 + r.1))
  {
    var s := Pad(n, 2) + rest;
    PadTwoDigits(n);
    assert s[0] == Pad(n, 2)[0] && s[1] == Pad(n, 2)[1];
    assert s[2..] == rest;
    assert Two(s) == n;
    var b: nat :=
      if fs[0] == Month then (if n >= 10 then 0 else 1)
      else if fs[0] == Day then (if n >= 30 then 0 else if n >= 10 then 1 else 2)
      else if fs[0] == Hour then (if n >= 20 then 0 else 1)
      else if fs[0] == Minute then 0
      else 1;
    assert AltMatch(fs[0], b, s) == Some(Piece(n, 2));
    TryAltFirst(fs, s, 0, b, Piece(n, 2), r);
  }

  lemma MatchYearField(fs: seq<FieldKind>, y: nat, rest: string, r: (seq<nat>, nat))
    requires |fs| > 0 && fs[0] == Year && 1000 <= y <= 9999
    requires MatchFields(fs[1..], rest) == Some(r)
    ensures MatchFields(fs, Pad(y, 4) + rest) == Some(([y] + r.0, 4 + r.1))
  {
    var s := Pad(y, 4) + rest;
    assert s[..4] == Pad(y, 4);
    assert s[4..] == rest;
    assert Pow10(4) == 10000;
    PadValue(y, 4);
    assert AltMatch(Year, 0, s) == Some(Piece(y, 4));
    TryAltFirst(fs, s, 0, 0, Piece(y, 4), r);
  }

  function Width(f: FieldKind): nat
  {
    if f == Year then 4 else 2
  }

  /** The values strftime can write for a field, in its fixed width. */
  predicate InRange(f: FieldKind, n: nat)
  {
    match f
    case Year => 1000 <= n <= 9999
    case Month => 1 <= n <= 12
    case Day => 1 <= n <= 31
    case Hour => n < 24
    case Minute => n < 60
    case Second => n < 60
  }

  /** The fields written zero-padded to their widths, one after another. */
  function Render(fs: seq<FieldKind>, vs: seq<nat>): (s: string)
    requires |fs| == |vs|
    ensures |s| == WidthSum(fs)
  {
    if |fs| == 0 then "" else Pad(vs[0], Width(fs[0])) + Render(fs[1..], vs[1..])
  }

  function WidthSum(fs: seq<FieldKind>): nat
  {
    if |fs| == 0 then 0 else Width(fs[0]) + WidthSum(fs[1..])
  }

  /** Zero-padded fields in range are read back by the pattern of those
      fields, consuming all of them. */
  lemma {:induction false} MatchRender(fs: seq<FieldKind>, vs: seq<nat>)
    requires |fs| == |vs|
    requires forall i :: 0 <= i < |fs| ==> InRange(fs[i], vs[i])
    ensures MatchFields(fs, Render(fs, vs)) == Some((vs, WidthSum(fs)))
  {
    if |fs| == 0 {
    } else {
      MatchRender(fs[1..], vs[1..]);
      var r := (vs[1..], WidthSum(fs[1..]));
      assert InRange(fs[0], vs[0]);
      if fs[0] == Year {
        MatchYearField(fs, vs[0], Render(fs[1..], vs[1..]), r);
      } else {
        MatchTwoDigitField(fs, vs[0], Render(fs[1..], vs[1..]), r);
      }
      assert [vs[0]] + vs[1..] == vs;
    }
  }

  function StampValues(t: DateTime): seq<nat>
  {
    [t.year, t.month, t.day, t.hour, t.minute, t.second]
  }

  lemma RenderStamp(t: DateTime)
    ensures Render(StampFields, StampValues(t)) ==
      Pad(t.year, 4) + (Pad(t.month, 2) + (Pad(t.day, 2) + (Pad(t.hour, 2) + (Pad(t.minute, 2) + (Pad(t.second, 2) + "")))))
    ensures WidthSum(StampFields) == 14
  {
    var fs := StampFields;
    var vs := StampValues(t);
    assert Render([], []) == "";
    assert Render([Second], [t.second]) == Pad(t.second, 2) + "";
    assert Render([Minute, Second], [t.minute, t.second]) == Pad(t.minute, 2) + Render([Second], [t.second]);
    assert Render([Hour, Minute, Second], [t.hour, t.minute, t.second])
        == Pad(t.hour, 2) + Render([Minute, Second], [t.minute, t.second]);
    assert Render([Day, Hour, Minute, Second], [t.day, t.hour, t.minute, t.second])
        == Pad(t.day, 2) + Render([Hour, Minute, Second], [t.hour, t.minute, t.second]);
    assert Render([Month, Day, Hour, Minute, Second], [t.month, t.day, t.hour, t.minute, t.second])
        == Pad(t.month, 2) + Render([Day, Hour, Minute, Second], [t.day, t.hour, t.minute, t.second]);
    assert Render(fs, vs) == Pad(t.year, 4) + Render([Month, Day, Hour, Minute, Second], [t.month, t.day, t.hour, t.minute, t.second]);
  }

  lemma Regroup(a: string, b: string, c: string, d: string, e: string, f: string)
    ensures a + b + c + (d + e + f) == a + (b + (c + (d + (e + (f + "")))))
  {
  }

  /** The timestamp strftime writes is read back by strptime. */
  lemma ParseStampOfFormat(t: DateTime)
    requires ValidDateTime(t) && t.year >= 1000
    ensures ParseStamp(Pad(t.year, 4) + Pad(t.month, 2) + Pad(t.day, 2) +
                       (Pad(t.hour, 2) + Pad(t.minute, 2) + Pad(t.second, 2))) == Some(t)
  {
    var vs := StampValues(t);
    assert forall i :: 0 <= i < 6 ==> InRange(StampFields[i], vs[i]);
    MatchRender(StampFields, vs);
    RenderStamp(t);
    Regroup(Pad(t.year, 4), Pad(t.month, 2), Pad(t.day, 2), Pad(t.hour, 2), Pad(t.minute, 2), Pad(t.second, 2));
  }

  // ---------------------------------------------------------------------
  // Names and search
  // ---------------------------------------------------------------------

  /** The timestamp `search_clips` reads from a name: the last two
      `_`-separated fields, joined, parsed; `None` when there are fewer than
      four fields or the parse raises. */
  function CreatedAtOf(name: string): Option<DateTime>
  {
    StampOfParts(Split(name, '_'))
  }

  function StampOfParts(parts: seq<string>): Option<DateTime>
  {
    if |parts| >= 4 then ParseStamp(parts[|parts| - 2] + parts[|parts| - 1]) else None
  }

  /** A name with an underscore in its head keeps its last two fields
      apart from the head. */
  lemma LastTwoFields(name: string, head: string, date: string, time: string)
    requires name == head + "_" + date + "_" + time
    requires '_' in head && '_' !in date && '_' !in time
    ensures var parts := Split(name, '_');
      |parts| >= 4 && parts[|parts| - 2] == date && parts[|parts| - 1] == time
  {
    SplitBeforeLast(head + "_" + date, '_', time);
    SplitBeforeLast(head, '_', date);
    SeparatorSplits(head);
    var front := Split(head, '_');
    assert Split(name, '_') == front + [date] + [time];
  }

  /** A string holding an underscore splits into at least two fields. */
  lemma SeparatorSplits(head: string)
    requires '_' in head
    ensures |Split(head, '_')| >= 2
  {
    var i :| 0 <= i < |head| && head[i] == '_';
    assert head == head[..i] + "_" + head[i + 1..];
    CountCharAppend(head[..i] + "_", head[i + 1..], '_');
    CountCharAppend(head[..i], "_", '_');
    assert CountChar("_", '_') == 1;
    SplitLength(head, '_');
  }

  lemma CreatedAtOfClipName(eventType: string, cameraId: string, t: DateTime)
    requires ValidDateTime(t) && t.year >= 1000
    ensures |Split(ClipName(eventType, cameraId, t), '_')| >= 4
    ensures CreatedAtOf(ClipName(eventType, cameraId, t)) == Some(t)
  {
    var date := Pad(t.year, 4) + Pad(t.month, 2) + Pad(t.day, 2);
    var time := Pad(t.hour, 2) + Pad(t.minute, 2) + Pad(t.second, 2);
    assert '_' !in date && '_' !in time by {
      assert AllDigits(date) && AllDigits(time);
    }
    var head := eventType + "_" + cameraId;
    assert head[|eventType|] == '_';
    var name := ClipName(eventType, cameraId, t);
    assert name == head + "_" + date + "_" + time;
    LastTwoFields(name, head, date, time);
    CreatedAtOfSplit(name, date, time);
    ParseStampOfFormat(t);
  }

  lemma CreatedAtOfSplit(name: string, date: string, time: string)
    requires var parts := Split(name, '_');
      |parts| >= 4 && parts[|parts| - 2] == date && parts[|parts| - 1] == time
    ensures CreatedAtOf(name) == ParseStamp(date + time)
  {
    StampOfLastTwo(Split(name, '_'), date, time);
  }

  lemma StampOfLastTwo(parts: seq<string>, date: string, time: string)
    requires |parts| >= 4 && parts[|parts| - 2] == date && parts[|parts| - 1] == time
    ensures StampOfParts(parts) == ParseStamp(date + time)
  {
  }

  /** A stored video: its id, name and description (absent name as ""). */
  datatype Video = Video(id: string, name: string, description: string)

  /** A search filter is applied only when it is given and non-empty. */
  predicate Passes(filter: Option<string>, name: string)
  {
    filter.None? || filter.value == "" || Contains(name, filter.value)
  }

  predicate Selected(v: Video, cameraId: Option<string>, eventType: Option<string>)
  {
    Passes(cameraId, v.name) && Passes(eventType, v.name)
  }

  /** One search hit; `createdAt` falls back to the current time. */
  datatype ClipInfo = ClipInfo(videoId: string, name: string, createdAt: DateTime, description: string)

  function InfoOf(v: Video, now: DateTime): ClipInfo
  {
    var c := CreatedAtOf(v.name);
    ClipInfo(v.id, v.name, if c.Some? then c.value else now, v.description)
  }

  /** The selected videos in collection order. */
  function Selection(videos: seq<Video>, cameraId: Option<string>, eventType: Option<string>, now: DateTime): seq<ClipInfo>
  {
    if |videos| == 0 then []
    else
      Selection(videos[..|videos| - 1], cameraId, eventType, now) +
      (if Selected(videos[|videos| - 1], cameraId, eventType) then [InfoOf(videos[|videos| - 1], now)] else [])
  }

  /** The loop appends before testing the limit, so a limit below one still
      lets the first hit through. */
  function Cap(limit: int): nat
  {
    if limit < 1 then 1 else limit
  }

  /** `c` is the hit of some selected video. */
  predicate HitOf(c: ClipInfo, videos: seq<Video>, cameraId: Option<string>, eventType: Option<string>, now: DateTime)
  {
    exists i :: 0 <= i < |videos| && Selected(videos[i], cameraId, eventType) && c == InfoOf(videos[i], now)
  }

  lemma {:induction false} SelectionMeaning(videos: seq<Video>, cameraId: Option<string>, eventType: Option<string>, now: DateTime)
    ensures var sel := Selection(videos, cameraId, eventType, now);
      && |sel| <= |videos|
      && (forall k :: 0 <= k < |sel| ==> HitOf(sel[k], videos, cameraId, eventType, now))
  {
    if |videos| > 0 {
      var init := videos[..|videos| - 1];
      var last := videos[|videos| - 1];
      SelectionMeaning(init, cameraId, eventType, now);
      var sel := Selection(videos, cameraId, eventType, now);
      var sel0 := Selection(init, cameraId, eventType, now);
      assert sel == sel0 + (if Selected(last, cameraId, eventType) then [InfoOf(last, now)] else []);
      forall k | 0 <= k < |sel|
        ensures HitOf(sel[k], videos, cameraId, eventType, now)
      {
        if k < |sel0| {
          assert sel[k] == sel0[k];
          var i :| 0 <= i < |init| && Selected(init[i], cameraId, eventType) && sel0[k] == InfoOf(init[i], now);
          assert videos[i] == init[i];
        } else {
          assert Selected(last, cameraId, eventType) && sel[k] == InfoOf(last, now);
          assert videos[|videos| - 1] == last;
        }
      }
    }
  }

  class ClipStore {
    /** Whether the VideoDB connection was set up. */
    var enabled: bool
    /** The collection's videos, in the order the service lists them. */
    var videos: seq<Video>

    constructor (enabled: bool, videos: seq<Video>)
      ensures this.enabled == enabled && this.videos == videos
    {
      this.enabled := enabled;
      this.videos := videos;
    }

    /** `save_security_clip`: nothing when disabled, when there are no
        frames, or when the upload fails; otherwise the named clip is added
        and its id returned. */
    method SaveSecurityClip(frames: seq<Frame>, cameraId: string, eventType: string, now: DateTime,
                            uploadedId: Option<string>) returns (id: Option<string>)
      requires ValidDateTime(now) && now.year >= 1000
      modifies this
      ensures enabled == old(enabled)
      ensures !enabled || |frames| == 0 || uploadedId.None? ==> id == None && videos == old(videos)
      ensures enabled && |frames| > 0 && uploadedId.Some? ==>
        && id == uploadedId
        && videos == old(videos) + [Video(uploadedId.value, ClipName(eventType, cameraId, now),
                                          ClipDescription(eventType, cameraId))]
    {
      if !enabled || |frames| == 0 {
        return None;
      }
      if uploadedId.None? {
        return None;
      }
      var name := ClipName(eventType, cameraId, now);
      videos := videos + [Video(uploadedId.value, name, ClipDescription(eventType, cameraId))];
      id := uploadedId;
    }

    /** `search_clips`: the selected videos in order, stopping as soon as
        the limit is reached. */
    method SearchClips(cameraId: Option<string>, eventType: Option<string>, limit: int, now: DateTime)
      returns (results: seq<ClipInfo>)
      ensures !enabled ==> results == []
      ensures enabled ==>
        var sel := Selection(videos, cameraId, eventType, now);
        results == sel[..Min(|sel|, Cap(limit))]
    {
      if !enabled {
        return [];
      }
      results := [];
      var i := 0;
      while i < |videos|
        invariant 0 <= i <= |videos|
        invariant results == Selection(videos[..i], cameraId, eventType, now)
        invariant |results| < Cap(limit)
      {
        var v := videos[i];
        assert videos[..i + 1][..i] == videos[..i];
        if Selected(v, cameraId, eventType) {
          results := results + [InfoOf(v, now)];
          if |results| >= limit {
            SelectionPrefix(videos, i + 1, cameraId, eventType, now);
            return;
          }
        }
        i := i + 1;
      }
      assert videos[..|videos|] == videos;
    }

    /** `delete_old_clips`: the deletion is disabled in the source, so the
        collection is left alone and the count is always zero. */
    method DeleteOldClips() returns (deleted: nat)
      ensures deleted == 0
    {
      deleted := 0;
    }
  }

  /** The selection of a prefix is a prefix of the selection. */
  lemma {:induction false} SelectionPrefix(videos: seq<Video>, n: nat, cameraId: Option<string>, eventType: Option<string>, now: DateTime)
    requires n <= |videos|
    ensures var whole := Selection(videos, cameraId, eventType, now);
      var part := Selection(videos[..n], cameraId, eventType, now);
      |part| <= |whole| && whole[..|part|] == part
    decreases |videos|
  {
    if n < |videos| {
      var init := videos[..|videos| - 1];
      assert init[..n] == videos[..n];
      SelectionPrefix(init, n, cameraId, eventType, now);
    } else {
      assert videos[..n] == videos;
    }
  }

  lemma ContainsBothIds(e: string, c: string, x: string)
    ensures Contains(e + "_" + c + "_" + x, e) && Contains(e + "_" + c + "_" + x, c)
  {
    ContainsInfix(e + "_", c, "_" + x);
    assert e + "_" + c + "_" + x == (e + "_") + c + ("_" + x);
    ContainsInfix("", e, "_" + c + "_" + x);
    assert e + "_" + c + "_" + x == "" + e + ("_" + c + "_" + x);
  }

  /** A saved clip passes the search filters of its own camera and event. */
  lemma SavedClipIsSelected(id: string, eventType: string, cameraId: string, t: DateTime)
    requires ValidDateTime(t) && t.year >= 1000
    ensures Selected(Video(id, ClipName(eventType, cameraId, t), ClipDescription(eventType, cameraId)),
                     Some(cameraId), Some(eventType))
  {
    ContainsBothIds(eventType, cameraId, FormatStamp(t));
  }
}
