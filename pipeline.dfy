/**
 * The detection pipeline of the security system (`FastSecuritySystem`): the
 * per-frame detection and recognition pass with its frame skipping, cached
 * results and statistics; the alert trigger with its video-recording gate;
 * the end of a recording; and the motion test over foreground contours.
 *
 * What the vision libraries compute is an input: the face boxes of a frame
 * with, for each box, the distances from its encoding to every known
 * encoding (None when no face or no encoding was found in the box), whether
 * a video writer opens with a given codec, and the areas of the foreground
 * contours.
 */
module Pipeline {
  import opened Util
  import opened Tracker
  import opened FaceDb
  import Cooldown

  /** What the face detector and encoder report for one box of a frame. */
  datatype FaceObservation = FaceObservation(box: BBox, distances: Option<seq<real>>)

  /** One entry of the list `detect_and_recognize` returns. */
  datatype Person = Person(box: BBox, identity: string, confidence: real, isKnown: bool, tracking: Target)

  /** The `stats` dictionary. */
  datatype Stats = Stats(totalDetections: nat, knownPersons: nat, unknownPersons: nat,
                         alertsSent: nat, framesProcessed: nat, framesSkipped: nat)

  /** A face region narrower or lower than this many pixels is skipped. */
  const MinRegion: nat := 40

  /** Codecs tried, in order, for the alert video. */
  const Codecs: seq<string> := ["avc1", "H264", "X264", "mp4v"]

  /** Seconds an alert video records. */
  const RecordingDuration: real := 15.0

  /** Contours of at most this many pixels are noise. */
  const MinContourArea: real := 500.0

  /**
   * Python's `int(x)` on `x == a / 5`: truncation toward zero. A box edge
   * moved by a fifth of the box size is `(5 * edge -/+ size) / 5`.
   */
  function TruncFifth(a: int): (n: int)
    ensures a >= 0 ==> n >= 0 && 5 * n <= a < 5 * n + 5
    ensures a < 0 ==> n <= 0 && 5 * n - 5 < a <= 5 * n
  {
    if a >= 0 then a / 5 else -((-a) / 5)
  }

  /** The length numpy gives the slice `[start:stop]` of an axis of length `dim`, for `start >= 0`. */
  function SliceLength(start: int, stop: int, dim: nat): (n: nat)
    requires start >= 0
    ensures n <= dim
    ensures 0 <= stop <= dim && start <= stop ==> n == stop - start
  {
    var lo := if start < dim then start else dim;
    var hi := if stop < 0 then (if stop + dim > 0 then stop + dim else 0)
              else if stop < dim then stop else dim;
    if hi > lo then hi - lo else 0
  }

  function Max(a: int, b: int): int { if a < b then b else a }
  function Min(a: int, b: int): int { if a < b then a else b }

  /**
   * The face region `detect_and_recognize` cuts from a `frameW` x `frameH`
   * frame around `box` (widened by a fifth of the box size on every side and
   * clipped to the frame) is at least `MinRegion` pixels both ways.
   */
  predicate RegionLargeEnough(box: BBox, frameW: nat, frameH: nat): (large: bool)
    ensures large ==> frameW >= MinRegion && frameH >= MinRegion
  {
    var width := box.x2 - box.x1;
    var height := box.y2 - box.y1;
    var x1e := Max(0, TruncFifth(5 * box.x1 - width));
    var y1e := Max(0, TruncFifth(5 * box.y1 - height));
    var x2e := Min(frameW, TruncFifth(5 * box.x2 + width));
    var y2e := Min(frameH, TruncFifth(5 * box.y2 + height));
    SliceLength(y1e, y2e, frameH) >= MinRegion && SliceLength(x1e, x2e, frameW) >= MinRegion
  }

  /** A box inside the frame that is at least 40 pixels both ways is never skipped. */
  lemma LargeBoxInFrameKept(box: BBox, frameW: nat, frameH: nat)
    requires 0 <= box.x1 && box.x1 + MinRegion as int <= box.x2 <= frameW
    requires 0 <= box.y1 && box.y1 + MinRegion as int <= box.y2 <= frameH
    ensures RegionLargeEnough(box, frameW, frameH)
  {
    var width := box.x2 - box.x1;
    var height := box.y2 - box.y1;
    var x1e := Max(0, TruncFifth(5 * box.x1 - width));
    var x2e := Min(frameW, TruncFifth(5 * box.x2 + width));
    var y1e := Max(0, TruncFifth(5 * box.y1 - height));
    var y2e := Min(frameH, TruncFifth(5 * box.y2 + height));
    assert x1e <= box.x1 && box.x2 <= x2e <= frameW;
    assert y1e <= box.y1 && box.y2 <= y2e <= frameH;
  }

  /**
   * The identification of one box: `identify_face_fast` on its distances, or
   * (None, 0) when nothing was encoded or the comparison failed (a distance
   * vector of the wrong length stands for the exception the detector swallows).
   */
  function MatchFor(obs: FaceObservation, names: seq<string>): (m: Match)
    ensures m.name.Some? ==> obs.distances.Some? && |obs.distances.value| == |names|
                             && m == Identify(names, obs.distances.value)
  {
    if obs.distances.Some? && |obs.distances.value| == |names| then Identify(names, obs.distances.value)
    else Match(None, 0.0)
  }

  /** The person entry for a kept box. */
  function PersonFor(obs: FaceObservation, names: seq<string>, trackerWidth: int): (p: Person)
    requires trackerWidth >= 2
    ensures p.box == obs.box
    ensures !p.isKnown ==> p.identity == Cooldown.UnknownName && p.confidence == 0.0
  {
    var m := MatchFor(obs, names);
    Person(obs.box, if Truthy(m.name) then m.name.value else Cooldown.UnknownName,
           m.confidence, m.name.Some?, TargetFor(obs.box, trackerWidth))
  }

  /**
   * A person entry is known exactly when the box was encoded and some known
   * encoding lies within the tolerance; its identity is then the elected
   * name (an empty name still shows as "UNKNOWN"), otherwise it is
   * "UNKNOWN" with confidence 0. The tracker aims at the box.
   */
  lemma PersonForMeaning(obs: FaceObservation, names: seq<string>, trackerWidth: int)
    requires trackerWidth >= 2
    ensures var p := PersonFor(obs, names, trackerWidth);
            && p.box == obs.box && p.tracking == TargetFor(obs.box, trackerWidth)
            && (p.isKnown <==> obs.distances.Some? && |obs.distances.value| == |names|
                               && exists i :: 0 <= i < |names| && obs.distances.value[i] < Tolerance)
            && (p.isKnown ==> var name := Identify(names, obs.distances.value).name.value;
                              p.identity == (if name == "" then Cooldown.UnknownName else name))
            && (!p.isKnown ==> p.identity == Cooldown.UnknownName && p.confidence == 0.0)
  {
    if obs.distances.Some? && |obs.distances.value| == |names| {
      IdentifyNamesIffClose(names, obs.distances.value);
    }
  }

  /** The boxes whose face region is large enough, in order. */
  function Kept(faces: seq<FaceObservation>, frameW: nat, frameH: nat): (k: seq<FaceObservation>)
    ensures |k| <= |faces|
    decreases |faces|
  {
    if faces == [] then []
    else
      var last := faces[|faces| - 1];
      var prior := Kept(faces[..|faces| - 1], frameW, frameH);
      if RegionLargeEnough(last.box, frameW, frameH) then prior + [last] else prior
  }

  /**
   * Skipping works box by box: the boxes of two runs of the frame are kept
   * as each run keeps them, one after the other, so the kept boxes keep the
   * frame's order and repetitions.
   */
  lemma {:induction false} KeptSplits(a: seq<FaceObservation>, b: seq<FaceObservation>, frameW: nat, frameH: nat)
    ensures Kept(a + b, frameW, frameH) == Kept(a, frameW, frameH) + Kept(b, frameW, frameH)
    decreases |b|
  {
    if b == [] {
      assert a + b == a;
    } else {
      var b' := b[..|b| - 1];
      KeptSplits(a, b', frameW, frameH);
      var ab := a + b;
      assert ab[..|ab| - 1] == a + b' && ab[|ab| - 1] == b[|b| - 1];
      KeptLast(ab, frameW, frameH);
      KeptLast(b, frameW, frameH);
    }
  }

  /** `Kept` decides the last box after the others. */
  lemma KeptLast(faces: seq<FaceObservation>, frameW: nat, frameH: nat)
    requires faces != []
    ensures var last := faces[|faces| - 1];
            Kept(faces, frameW, frameH) ==
              Kept(faces[..|faces| - 1], frameW, frameH)
              + (if RegionLargeEnough(last.box, frameW, frameH) then [last] else [])
  {
  }

  /** Every kept box has a large enough region, and every box with one is kept. */
  lemma {:induction false} KeptMeaning(faces: seq<FaceObservation>, frameW: nat, frameH: nat)
    ensures var k := Kept(faces, frameW, frameH);
            && (forall i :: 0 <= i < |k| ==> k[i] in faces && RegionLargeEnough(k[i].box, frameW, frameH))
            && (forall i :: 0 <= i < |faces| && RegionLargeEnough(faces[i].box, frameW, frameH) ==> faces[i] in k)
    decreases |faces|
  {
    if faces != [] {
      var init, last := faces[..|faces| - 1], faces[|faces| - 1];
      KeptMeaning(init, frameW, frameH);
      var prior, k := Kept(init, frameW, frameH), Kept(faces, frameW, frameH);
      var keep := RegionLargeEnough(last.box, frameW, frameH);
      assert k == if keep then prior + [last] else prior;
      forall i | 0 <= i < |k|
        ensures k[i] in faces && RegionLargeEnough(k[i].box, frameW, frameH)
      {
        if i < |prior| {
          assert k[i] == prior[i];
          var j :| 0 <= j < |init| && init[j] == prior[i];
          assert faces[j] == init[j];
        }
      }
      forall i | 0 <= i < |faces| && RegionLargeEnough(faces[i].box, frameW, frameH)
        ensures faces[i] in k
      {
        if i < |init| {
          assert faces[i] == init[i];
        }
      }
    }
  }

  function Persons(kept: seq<FaceObservation>, names: seq<string>, trackerWidth: int): (ps: seq<Person>)
    requires trackerWidth >= 2
    ensures |ps| == |kept|
    ensures forall i :: 0 <= i < |kept| ==> ps[i] == PersonFor(kept[i], names, trackerWidth)
  {
    seq(|kept|, i requires 0 <= i < |kept| => PersonFor(kept[i], names, trackerWidth))
  }

  /** How many kept boxes got a truthy name (the `known_persons` increments). */
  function NamedCount(kept: seq<FaceObservation>, names: seq<string>): (n: nat)
    ensures n <= |kept|
    decreases |kept|
  {
    if kept == [] then 0
    else NamedCount(kept[..|kept| - 1], names) + (if Truthy(MatchFor(kept[|kept| - 1], names).name) then 1 else 0)
  }

  /** The positions of the kept boxes that got a truthy name. */
  function NamedPositions(kept: seq<FaceObservation>, names: seq<string>): set<int>
  {
    set i | 0 <= i < |kept| && Truthy(MatchFor(kept[i], names).name)
  }

  /** `known_persons` grows by exactly the number of kept boxes with a truthy name. */
  lemma {:induction false} NamedCountMeaning(kept: seq<FaceObservation>, names: seq<string>)
    ensures NamedCount(kept, names) == |NamedPositions(kept, names)|
    decreases |kept|
  {
    if kept != [] {
      var k := |kept| - 1;
      var prefix := kept[..k];
      NamedCountMeaning(prefix, names);
      var before := NamedPositions(prefix, names);
      var after := NamedPositions(kept, names);
      var last: set<int> := if Truthy(MatchFor(kept[k], names).name) then {k} else {};
      forall i | i in after
        ensures i in before + last
      {
        if i < k {
          assert kept[i] == prefix[i] && i in before;
        } else {
          assert i == k && Truthy(MatchFor(kept[k], names).name);
        }
      }
      forall i | i in before + last
        ensures i in after
      {
        if i in last {
          assert i == k && Truthy(MatchFor(kept[k], names).name);
        } else {
          assert i in before && kept[i] == prefix[i];
        }
      }
      assert after == before + last;
      assert before !! last;
      assert |after| == |before| + |last|;
      assert NamedCount(kept, names) == NamedCount(prefix, names) + |last|;
    }
  }

  /** One more box: it is kept exactly when its region is large enough. */
  lemma KeptStep(faces: seq<FaceObservation>, i: nat, frameW: nat, frameH: nat)
    requires i < |faces|
    ensures RegionLargeEnough(faces[i].box, frameW, frameH) ==>
              Kept(faces[..i + 1], frameW, frameH) == Kept(faces[..i], frameW, frameH) + [faces[i]]
    ensures !RegionLargeEnough(faces[i].box, frameW, frameH) ==>
              Kept(faces[..i + 1], frameW, frameH) == Kept(faces[..i], frameW, frameH)
  {
    assert faces[..i + 1][..i] == faces[..i];
  }

  /** One more kept box adds its person entry and, when it is named, one to the named count. */
  lemma AppendStep(kept: seq<FaceObservation>, obs: FaceObservation, names: seq<string>, trackerWidth: int)
    requires trackerWidth >= 2
    ensures Persons(kept + [obs], names, trackerWidth) == Persons(kept, names, trackerWidth) + [PersonFor(obs, names, trackerWidth)]
    ensures NamedCount(kept + [obs], names) == NamedCount(kept, names) + (if Truthy(MatchFor(obs, names).name) then 1 else 0)
  {
    assert (kept + [obs])[..|kept|] == kept;
  }

  /** How many of the frames `1..count` the skip rule processes. */
  function ProcessedFrames(count: nat, n: int): (processed: nat)
    requires n != 0
    ensures processed <= count
    decreases count
  {
    if count == 0 then 0 else ProcessedFrames(count - 1, n) + (if count % n == 0 then 1 else 0)
  }

  /** With `process_every_n_frames == n`, exactly `count / |n|` of the first `count` frames are processed. */
  lemma {:induction false} ProcessedFramesCount(count: nat, n: int)
    requires n != 0
    ensures ProcessedFrames(count, n) == count / IntAbs(n)
    decreases count
  {
    if count > 0 {
      ProcessedFramesCount(count - 1, n);
      DivModSign(count, n);
      DivStep(count, IntAbs(n));
    }
  }

  /** Counting up by one, the quotient grows exactly at the multiples of `m`. */
  lemma DivStep(x: int, m: int)
    requires x >= 1 && m > 0
    ensures x % m == 0 ==> x / m == (x - 1) / m + 1
    ensures x % m != 0 ==> x / m == (x - 1) / m
  {
    var q, r := (x - 1) / m, (x - 1) % m;
    assert x - 1 == q * m + r && 0 <= r < m;
    if r + 1 == m {
      DivModOf(x, m, q + 1, 0);
    } else {
      DivModOf(x, m, q, r + 1);
    }
  }

  /** Division and remainder are determined by any decomposition `x == q * m + r` with `0 <= r < m`. */
  lemma DivModOf(x: int, m: int, q: int, r: int)
    requires m > 0 && x == q * m + r && 0 <= r < m
    ensures x / m == q && x % m == r
  {
    var q', r' := x / m, x % m;
    assert x == q' * m + r' && 0 <= r' < m;
    if q' < q {
      MulDiff(q, q', m);
      MulAtLeast(q - q', m);
    } else if q' > q {
      MulDiff(q', q, m);
      MulAtLeast(q' - q, m);
    }
  }

  lemma MulDiff(a: int, b: int, m: int)
    ensures a * m - b * m == (a - b) * m
  {
  }

  lemma {:induction false} MulAtLeast(k: int, m: int)
    requires k >= 1 && m > 0
    ensures k * m >= m
    decreases k
  {
    if k > 1 {
      MulAtLeast(k - 1, m);
      MulDiff(k, 1, m);
    }
  }

  /** Divisibility by `n` and by `|n|` agree. */
  lemma DivModSign(x: int, n: int)
    requires n != 0
    ensures x % n == x % IntAbs(n)
  {
    if n < 0 {
      var q, r := x / n, x % n;
      assert x == q * n + r && 0 <= r < -n;
      assert x == (-q) * (-n) + r;
      DivModOf(x, -n, -q, r);
    }
  }

  /** The foreground pixels `MotionDetector.detect` adds up: areas of the contours above 500. */
  function MotionPixels(areas: seq<real>): (pixels: real)
    ensures pixels >= 0.0
    decreases |areas|
  {
    if areas == [] then 0.0
    else MotionPixels(areas[..|areas| - 1]) + (if areas[|areas| - 1] > MinContourArea then areas[|areas| - 1] else 0.0)
  }

  /** Contours contribute independently: the motion of two batches of contours adds up. */
  lemma {:induction false} MotionPixelsAdditive(a: seq<real>, b: seq<real>)
    ensures MotionPixels(a + b) == MotionPixels(a) + MotionPixels(b)
    decreases |b|
  {
    if b == [] {
      assert a + b == a;
    } else {
      assert (a + b)[..|a + b| - 1] == a + b[..|b| - 1];
      assert (a + b)[|a + b| - 1] == b[|b| - 1];
      MotionPixelsAdditive(a, b[..|b| - 1]);
    }
  }

  /** Small contours never count: a frame whose contours are all at most 500 pixels shows no motion. */
  lemma {:induction false} SmallContoursIgnored(areas: seq<real>, sensitivity: real)
    requires forall i :: 0 <= i < |areas| ==> areas[i] <= MinContourArea
    requires sensitivity >= 0.0
    ensures MotionPixels(areas) == 0.0 && !(MotionPixels(areas) > sensitivity)
    decreases |areas|
  {
    if areas != [] {
      SmallContoursIgnored(areas[..|areas| - 1], sensitivity);
    }
  }

  /** `MotionDetector.detect`: motion when the large contours cover more than `sensitivity` pixels. */
  method DetectMotion(areas: seq<real>, sensitivity: real) returns (motion: bool)
    ensures motion == (MotionPixels(areas) > sensitivity)
  {
    var pixels := 0.0;
    for i := 0 to |areas|
      invariant pixels == MotionPixels(areas[..i])
    {
      assert areas[..i + 1][..i] == areas[..i];
      if areas[i] > MinContourArea {
        pixels := pixels + areas[i];
      }
    }
    assert areas[..|areas|] == areas;
    motion := pixels > sensitivity;
  }

  /** Where the tracker points after the entries `ps`: at the last one, or where it pointed before. */
  function LastTarget(ps: seq<Person>, before: Option<Target>): Option<Target>
  {
    if ps == [] then before else Some(ps[|ps| - 1].tracking)
  }

  /** `FastSecuritySystem`: frame counter, cached detections, statistics and recording state. */
  class FastSecuritySystem {
    const processEveryN: int
    var frameCount: nat
    var lastDetections: seq<Person>
    var stats: Stats
    var recording: bool
    var recordingStart: real
    /** The codec of the open video writer, None when there is none. */
    var videoCodec: Option<string>
    /** When the face database was last loaded, and how often it is reloaded. */
    var lastFaceReload: real
    const faceReloadInterval: real
    const faceDb: FastFaceDatabase
    const cooldown: Cooldown.AlertCooldown
    const tracker: CoordinateTracker

    ghost predicate Valid()
      reads this, tracker, faceDb
    {
      && processEveryN != 0
      && tracker.Valid() && faceDb.Valid()
      && stats.framesSkipped + stats.framesProcessed == frameCount
      && stats.framesProcessed == ProcessedFrames(frameCount, processEveryN)
      && stats.totalDetections == stats.knownPersons + stats.unknownPersons
      && (recording <==> videoCodec.Some?)
    }

    /**
     * A system started at time `now`; `remote` and `local` are what the face
     * database finds when it loads (see `FastFaceDatabase`).
     */
    constructor (processEveryN: int, cooldownSeconds: real, frameWidth: int, frameHeight: int,
                 faceReloadInterval: real, now: real,
                 remote: Option<seq<FaceRow>>, local: Option<seq<FaceRow>>)
      requires processEveryN != 0 && frameWidth >= 2
      ensures Valid() && fresh(faceDb) && fresh(cooldown) && fresh(tracker)
      ensures this.processEveryN == processEveryN && frameCount == 0 && lastDetections == []
      ensures stats == Stats(0, 0, 0, 0, 0, 0) && !recording
      ensures lastFaceReload == now && this.faceReloadInterval == faceReloadInterval
      ensures faceDb.knownNames == (if LoadSource(remote, local).Some? then RowNames(LoadSource(remote, local).value) else [])
      ensures cooldown.cooldownSeconds == cooldownSeconds && cooldown.lastAlerts == map[]
      ensures tracker.frameWidth == frameWidth && tracker.frameHeight == frameHeight && tracker.currentTarget == None
    {
      this.processEveryN := processEveryN;
      frameCount := 0;
      lastDetections := [];
      stats := Stats(0, 0, 0, 0, 0, 0);
      recording := false;
      recordingStart := 0.0;
      videoCodec := None;
      lastFaceReload := now;
      this.faceReloadInterval := faceReloadInterval;
      faceDb := new FastFaceDatabase(remote, local);
      cooldown := new Cooldown.AlertCooldown(cooldownSeconds);
      tracker := new CoordinateTracker(frameWidth, frameHeight);
    }

    /**
     * `detect_and_recognize` on a `frameW` x `frameH` frame whose face boxes
     * and distances are `faces`.
     */
    method DetectAndRecognize(faces: seq<FaceObservation>, frameW: nat, frameH: nat) returns (persons: seq<Person>)
      requires Valid()
      modifies this, tracker
      ensures Valid()
      ensures frameCount == old(frameCount) + 1
      ensures recording == old(recording) && videoCodec == old(videoCodec) && recordingStart == old(recordingStart)
      ensures lastFaceReload == old(lastFaceReload)
      ensures stats.alertsSent == old(stats.alertsSent)
      ensures tracker.frameWidth == old(tracker.frameWidth) && tracker.frameHeight == old(tracker.frameHeight)
      ensures frameCount % processEveryN != 0 ==>
                && persons == old(lastDetections) && lastDetections == old(lastDetections)
                && stats == old(stats).(framesSkipped := old(stats.framesSkipped) + 1)
                && tracker.currentTarget == old(tracker.currentTarget)
      ensures frameCount % processEveryN == 0 ==>
                var kept := Kept(faces, frameW, frameH);
                var named := NamedCount(kept, faceDb.knownNames);
                && persons == Persons(kept, faceDb.knownNames, tracker.frameWidth)
                && lastDetections == persons
                && stats == old(stats).(framesProcessed := old(stats.framesProcessed) + 1,
                                        totalDetections := old(stats.totalDetections) + |kept|,
                                        knownPersons := old(stats.knownPersons) + named,
                                        unknownPersons := old(stats.unknownPersons) + (|kept| - named))
                && tracker.currentTarget == LastTarget(persons, old(tracker.currentTarget))
    {
      frameCount := frameCount + 1;
      if frameCount % processEveryN != 0 {
        stats := stats.(framesSkipped := stats.framesSkipped + 1);
        return lastDetections;
      }
      persons := ProcessFrame(faces, frameW, frameH);
    }

    /** A frame that is not skipped: its boxes are recognized, counted and cached. */
    method ProcessFrame(faces: seq<FaceObservation>, frameW: nat, frameH: nat) returns (persons: seq<Person>)
      requires tracker.Valid() && faceDb.Valid()
      modifies this, tracker
      ensures tracker.Valid()
      ensures tracker.frameWidth == old(tracker.frameWidth) && tracker.frameHeight == old(tracker.frameHeight)
      ensures frameCount == old(frameCount) && recording == old(recording) && videoCodec == old(videoCodec)
      ensures recordingStart == old(recordingStart) && lastFaceReload == old(lastFaceReload)
      ensures var kept := Kept(faces, frameW, frameH);
              var named := NamedCount(kept, faceDb.knownNames);
              && persons == Persons(kept, faceDb.knownNames, tracker.frameWidth)
              && lastDetections == persons
              && stats == old(stats).(framesProcessed := old(stats.framesProcessed) + 1,
                                      totalDetections := old(stats.totalDetections) + |kept|,
                                      knownPersons := old(stats.knownPersons) + named,
                                      unknownPersons := old(stats.unknownPersons) + (|kept| - named))
              && tracker.currentTarget == LastTarget(persons, old(tracker.currentTarget))
    {
      var named;
      persons, named := RecognizeFaces(faces, frameW, frameH);
      stats := stats.(framesProcessed := stats.framesProcessed + 1,
                      totalDetections := stats.totalDetections + |persons|,
                      knownPersons := stats.knownPersons + named,
                      unknownPersons := stats.unknownPersons + (|persons| - named));
      lastDetections := persons;
    }

    /**
     * The loop of `detect_and_recognize` over the boxes of a processed frame:
     * boxes whose region is too small are skipped; every other box is
     * identified (when it has an encoding), becomes the tracker's target and
     * yields a person entry. `named` counts the entries with a truthy name.
     */
    method RecognizeFaces(faces: seq<FaceObservation>, frameW: nat, frameH: nat) returns (persons: seq<Person>, named: nat)
      requires tracker.Valid() && faceDb.Valid()
      modifies tracker
      ensures tracker.Valid()
      ensures tracker.frameWidth == old(tracker.frameWidth) && tracker.frameHeight == old(tracker.frameHeight)
      ensures persons == Persons(Kept(faces, frameW, frameH), faceDb.knownNames, tracker.frameWidth)
      ensures named == NamedCount(Kept(faces, frameW, frameH), faceDb.knownNames)
      ensures tracker.currentTarget == LastTarget(persons, old(tracker.currentTarget))
    {
      var names, width := faceDb.knownNames, tracker.frameWidth;
      persons, named := [], 0;
      ghost var kept: seq<FaceObservation> := [];
      for i := 0 to |faces|
        invariant tracker.Valid() && tracker.frameWidth == width
        invariant tracker.frameHeight == old(tracker.frameHeight)
        invariant kept == Kept(faces[..i], frameW, frameH)
        invariant persons == Persons(kept, names, width)
        invariant named == NamedCount(kept, names)
        invariant tracker.currentTarget == LastTarget(persons, old(tracker.currentTarget))
      {
        persons, named, kept := ConsiderFace(faces, i, frameW, frameH, kept, persons, named, old(tracker.currentTarget));
      }
      assert faces[..|faces|] == faces;
    }

    /**
     * One pass of that loop: a box whose region is too small is skipped,
     * any other one is recognized.
     */
    method ConsiderFace(faces: seq<FaceObservation>, i: nat, frameW: nat, frameH: nat,
                        ghost kept: seq<FaceObservation>, persons: seq<Person>, named: nat,
                        ghost before: Option<Target>)
      returns (persons': seq<Person>, named': nat, ghost kept': seq<FaceObservation>)
      requires i < |faces| && tracker.Valid() && faceDb.Valid()
      requires kept == Kept(faces[..i], frameW, frameH)
      requires persons == Persons(kept, faceDb.knownNames, tracker.frameWidth)
      requires named == NamedCount(kept, faceDb.knownNames)
      requires tracker.currentTarget == LastTarget(persons, before)
      modifies tracker
      ensures tracker.Valid()
      ensures tracker.frameWidth == old(tracker.frameWidth) && tracker.frameHeight == old(tracker.frameHeight)
      ensures kept' == Kept(faces[..i + 1], frameW, frameH)
      ensures persons' == Persons(kept', faceDb.knownNames, tracker.frameWidth)
      ensures named' == NamedCount(kept', faceDb.knownNames)
      ensures tracker.currentTarget == LastTarget(persons', before)
    {
      KeptStep(faces, i, frameW, frameH);
      var obs := faces[i];
      if !RegionLargeEnough(obs.box, frameW, frameH) {
        return persons, named, kept;
      }
      persons', named' := RecognizeFace(obs, kept, persons, named);
      kept' := kept + [obs];
    }

    /**
     * The body of that loop for one kept box: identify it, aim the tracker at
     * it and append its person entry to those of the boxes `kept` before it.
     */
    method RecognizeFace(obs: FaceObservation, ghost kept: seq<FaceObservation>, persons: seq<Person>, named: nat)
      returns (persons': seq<Person>, named': nat)
      requires tracker.Valid() && faceDb.Valid()
      requires persons == Persons(kept, faceDb.knownNames, tracker.frameWidth)
      requires named == NamedCount(kept, faceDb.knownNames)
      modifies tracker
      ensures tracker.Valid()
      ensures tracker.frameWidth == old(tracker.frameWidth) && tracker.frameHeight == old(tracker.frameHeight)
      ensures persons' == Persons(kept + [obs], faceDb.knownNames, tracker.frameWidth)
      ensures named' == NamedCount(kept + [obs], faceDb.knownNames)
      ensures tracker.currentTarget == Some(persons'[|persons'| - 1].tracking)
    {
      var m := Match(None, 0.0);
      if obs.distances.Some? && |obs.distances.value| == |faceDb.knownNames| {
        m := faceDb.IdentifyFace(obs.distances.value);
      }
      var target := tracker.UpdateTarget(obs.box);
      var person := Person(obs.box, if Truthy(m.name) then m.name.value else Cooldown.UnknownName,
                           m.confidence, m.name.Some?, target);
      AppendStep(kept, obs, faceDb.knownNames, tracker.frameWidth);
      persons' := persons + [person];
      named' := if Truthy(m.name) then named + 1 else named;
    }

    /**
     * `trigger_alert` at time `now`: the cooldown is consulted (and stamped)
     * first; then an alert starts only when no video is being recorded and a
     * video writer opens with one of the codecs.
     */
    method TriggerAlert(person: Person, now: real, writerOpens: string -> bool) returns (sent: bool)
      requires Valid()
      modifies this, cooldown
      ensures Valid()
      ensures var d := Cooldown.Decide(old(cooldown.lastAlerts), cooldown.cooldownSeconds, person.identity, now);
              && cooldown.lastAlerts == d.table
              && (sent <==> d.allowed && !old(recording) && FirstOpening(Codecs, writerOpens).Some?)
      ensures stats == old(stats).(alertsSent := old(stats.alertsSent) + (if sent then 1 else 0))
      ensures recording == (old(recording) || sent)
      ensures sent ==> recordingStart == now && videoCodec == FirstOpening(Codecs, writerOpens)
      ensures !sent ==> recordingStart == old(recordingStart)
      ensures !sent ==> videoCodec == old(videoCodec)
      ensures frameCount == old(frameCount) && lastDetections == old(lastDetections)
      ensures lastFaceReload == old(lastFaceReload)
    {
      var allowed := cooldown.CanAlert(person.identity, now);
      sent := false;
      if allowed && !recording {
        sent := StartRecording(now, writerOpens);
      }
    }

    /**
     * The recording branch of `trigger_alert`: the codecs are tried in order;
     * when one opens, the recording starts and the alert counts.
     */
    method StartRecording(now: real, writerOpens: string -> bool) returns (started: bool)
      requires Valid() && !recording
      modifies this
      ensures Valid()
      ensures started <==> FirstOpening(Codecs, writerOpens).Some?
      ensures videoCodec == FirstOpening(Codecs, writerOpens) && recording == started
      ensures stats == old(stats).(alertsSent := old(stats.alertsSent) + (if started then 1 else 0))
      ensures recordingStart == if started then now else old(recordingStart)
      ensures frameCount == old(frameCount) && lastDetections == old(lastDetections)
      ensures lastFaceReload == old(lastFaceReload)
    {
      var writer := OpenFirst(Codecs, writerOpens);
      videoCodec := writer;
      started := writer.Some?;
      if started {
        recording := true;
        recordingStart := now;
        stats := stats.(alertsSent := stats.alertsSent + 1);
      }
    }

    /**
     * The periodic reload of the main loop: once more than the reload
     * interval has passed since the last load, the face database reloads,
     * replacing what it held (see `FastFaceDatabase.ReloadDatabase`).
     */
    method ReloadFacesIfDue(now: real, remote: Option<seq<FaceRow>>, local: Option<seq<FaceRow>>)
      returns (reloaded: bool)
      requires Valid()
      modifies this, faceDb
      ensures Valid()
      ensures reloaded <==> now - old(lastFaceReload) > faceReloadInterval
      ensures lastFaceReload == (if reloaded then now else old(lastFaceReload))
      ensures !reloaded || LoadSource(remote, local).None? ==>
                faceDb.knownNames == old(faceDb.knownNames) && faceDb.knownEncodings == old(faceDb.knownEncodings)
      ensures reloaded && LoadSource(remote, local).Some? ==>
                && faceDb.knownNames == RowNames(LoadSource(remote, local).value)
                && faceDb.knownEncodings == RowEncodings(LoadSource(remote, local).value)
      ensures stats == old(stats) && frameCount == old(frameCount) && recording == old(recording)
      ensures lastDetections == old(lastDetections) && recordingStart == old(recordingStart)
      ensures videoCodec == old(videoCodec)
    {
      reloaded := now - lastFaceReload > faceReloadInterval;
      if reloaded {
        faceDb.ReloadDatabase(remote, local);
        lastFaceReload := now;
      }
    }

    /**
     * The same periodic reload as the main loop writes it, with `load_database`
     * appending remote rows to what the database already holds.
     */
    method ReloadFacesIfDueAsWritten(now: real, remote: Option<seq<FaceRow>>, local: Option<seq<FaceRow>>)
      returns (reloaded: bool)
      requires Valid()
      modifies this, faceDb
      ensures Valid()
      ensures reloaded <==> now - old(lastFaceReload) > faceReloadInterval
      ensures lastFaceReload == (if reloaded then now else old(lastFaceReload))
      ensures !reloaded ==>
                faceDb.knownNames == old(faceDb.knownNames) && faceDb.knownEncodings == old(faceDb.knownEncodings)
      ensures reloaded && remote.Some? && |remote.value| > 0 ==>
                && faceDb.knownNames == old(faceDb.knownNames) + RowNames(remote.value)
                && faceDb.knownEncodings == old(faceDb.knownEncodings) + RowEncodings(remote.value)
      ensures reloaded && (remote.None? || |remote.value| == 0) && local.Some? ==>
                faceDb.knownNames == RowNames(local.value) && faceDb.knownEncodings == RowEncodings(local.value)
      ensures reloaded && (remote.None? || |remote.value| == 0) && local.None? ==>
                faceDb.knownNames == old(faceDb.knownNames) && faceDb.knownEncodings == old(faceDb.knownEncodings)
      ensures stats == old(stats) && frameCount == old(frameCount) && recording == old(recording)
      ensures lastDetections == old(lastDetections) && recordingStart == old(recordingStart)
      ensures videoCodec == old(videoCodec)
    {
      reloaded := now - lastFaceReload > faceReloadInterval;
      if reloaded {
        faceDb.LoadDatabase(remote, local);
        lastFaceReload := now;
      }
    }

    /** The end of a recording in the main loop: the writer is released once the video is long enough. */
    method FinishRecordingIfDue(now: real) returns (stopped: bool)
      requires Valid()
      modifies this
      ensures Valid()
      ensures stopped <==> old(recording) && now - old(recordingStart) > RecordingDuration
      ensures recording == (old(recording) && !stopped)
      ensures stopped ==> videoCodec == None
      ensures !stopped ==> videoCodec == old(videoCodec)
      ensures stats == old(stats) && recordingStart == old(recordingStart)
      ensures frameCount == old(frameCount) && lastDetections == old(lastDetections)
      ensures lastFaceReload == old(lastFaceReload)
    {
      stopped := recording && now - recordingStart > RecordingDuration;
      if stopped {
        recording := false;
        videoCodec := None;
      }
    }
  }
}
