/**
 * The training-photo tool: the capture session that counts the encodings
 * taken and uploaded, the on-screen suggestion, the review of locally saved
 * photos, and the photo-count argument of the command line. What the camera,
 * the face encoder, the upload and the keyboard deliver is input: one
 * `Tick` per pass of the capture loop, one key per shown photo.
 */
module Capture {
  import opened Util

  /** Keys, as `waitKey` reports them. */
  const SpaceKey: char := ' '
  const QuitKey: char := 'q'
  const NextKey: char := 'n'
  const DeleteKey: char := 'd'

  /** The number of photos when the command line gives none. */
  const DefaultNumPhotos: nat := 5

  /** The head poses suggested for the first photos. */
  const Angles: seq<string> := [
    "Center (straight ahead)",
    "Slight left turn",
    "Slight right turn",
    "Tilt head slightly",
    "Center (smile)"
  ]

  /**
   * One pass of the capture loop: whether a frame was read, whether the
   * preview found a face, the key pressed, whether the frame then encoded,
   * and whether the upload succeeded.
   */
  datatype Tick = Tick(frameRead: bool, faceSeen: bool, key: char, encoded: bool, uploaded: bool)

  /** The counters of a capture session and whether 'q' ended it. */
  datatype Session = Session(count: nat, uploaded: nat, quit: bool)

  /** A pass that adds a photo: a frame, a face, SPACE, and an encoding. */
  predicate Captures(t: Tick)
  {
    t.frameRead && t.key == SpaceKey && t.faceSeen && t.encoded
  }

  /** A pass that ends the session. */
  predicate Quits(t: Tick)
  {
    t.frameRead && t.key == QuitKey
  }

  /** One pass of the loop of `capture_training_photos`. */
  function Step(s: Session, t: Tick, hasUserId: bool): (r: Session)
    ensures Captures(t) ==> r.count == s.count + 1
    ensures !Captures(t) ==> r.count == s.count && r.uploaded == s.uploaded
    ensures r.uploaded == s.uploaded + (if Captures(t) && hasUserId && t.uploaded then 1 else 0)
    ensures r.quit == (s.quit || Quits(t))
  {
    if !t.frameRead then s
    else if t.key == SpaceKey then
      if !t.faceSeen || !t.encoded then s
      else Session(s.count + 1, s.uploaded + (if hasUserId && t.uploaded then 1 else 0), s.quit)
    else if t.key == QuitKey then s.(quit := true)
    else s
  }

  /**
   * The session after the passes `ticks`, starting from `s`: it stops once
   * `num` photos are taken, after 'q', or when the passes run out.
   */
  function Run(s: Session, ticks: seq<Tick>, num: int, hasUserId: bool): (r: Session)
    ensures s.count <= r.count && s.uploaded <= r.uploaded
    ensures s.quit || s.count >= num ==> r == s
    decreases |ticks|
  {
    if s.quit || s.count >= num || ticks == [] then s
    else Run(Step(s, ticks[0], hasUserId), ticks[1..], num, hasUserId)
  }

  /** The counters' invariant: nothing uploaded that was not taken, never more than asked for. */
  predicate Bounded(s: Session, num: int, hasUserId: bool)
  {
    s.uploaded <= s.count && (s.count == 0 || s.count <= num) && (!hasUserId ==> s.uploaded == 0)
  }

  /** A session keeps `uploaded <= count <= num`, and uploads nothing without a user id. */
  lemma {:induction false} RunBounded(s: Session, ticks: seq<Tick>, num: int, hasUserId: bool)
    requires Bounded(s, num, hasUserId)
    ensures Bounded(Run(s, ticks, num, hasUserId), num, hasUserId)
    decreases |ticks|
  {
    if !(s.quit || s.count >= num || ticks == []) {
      RunBounded(Step(s, ticks[0], hasUserId), ticks[1..], num, hasUserId);
    }
  }

  /** How many of the passes take a photo. */
  function CaptureCount(ticks: seq<Tick>): nat
    decreases |ticks|
  {
    if ticks == [] then 0 else (if Captures(ticks[0]) then 1 else 0) + CaptureCount(ticks[1..])
  }

  /**
   * Without 'q', a session takes a photo for every capturing pass until it
   * has `num` of them.
   */
  lemma {:induction false} RunCountsCaptures(s: Session, ticks: seq<Tick>, num: int, hasUserId: bool)
    requires !s.quit && s.count <= num
    requires forall i :: 0 <= i < |ticks| ==> !Quits(ticks[i])
    ensures var total := s.count + CaptureCount(ticks);
            Run(s, ticks, num, hasUserId).count == if total < num then total else num
    decreases |ticks|
  {
    if s.count < num && ticks != [] {
      RunCountsCaptures(Step(s, ticks[0], hasUserId), ticks[1..], num, hasUserId);
    }
  }

  /**
   * `capture_training_photos` once the stream is open: the loop over the
   * passes, returning the photos taken and the photos uploaded.
   */
  method CaptureTrainingPhotos(num: int, hasUserId: bool, ticks: seq<Tick>) returns (count: nat, uploaded: nat)
    ensures Run(Session(0, 0, false), ticks, num, hasUserId) == Session(count, uploaded, Run(Session(0, 0, false), ticks, num, hasUserId).quit)
    ensures uploaded <= count && (count == 0 || count <= num)
    ensures !hasUserId ==> uploaded == 0
  {
    count, uploaded := 0, 0;
    var i := 0;
    while count < num && i < |ticks|
      invariant 0 <= i <= |ticks|
      invariant Run(Session(0, 0, false), ticks, num, hasUserId) == Run(Session(count, uploaded, false), ticks[i..], num, hasUserId)
      invariant Bounded(Session(count, uploaded, false), num, hasUserId)
    {
      var t := ticks[i];
      assert ticks[i..][0] == t && ticks[i..][1..] == ticks[i + 1..];
      i := i + 1;
      if !t.frameRead {
        continue;
      }
      if t.key == SpaceKey {
        if !t.faceSeen {
          continue;
        }
        if !t.encoded {
          continue;
        }
        count := count + 1;
        if hasUserId && t.uploaded {
          uploaded := uploaded + 1;
        }
      } else if t.key == QuitKey {
        break;
      }
    }
  }

  /** The suggestion line: the pose for the next photo, then a generic hint. */
  function Suggestion(count: nat): (s: string)
    ensures count < |Angles| ==> s == "Try: " + Angles[count]
    ensures count >= |Angles| ==> s == "Keep varying angle"
  {
    if count < |Angles| then "Try: " + Angles[count] else "Keep varying angle"
  }

  /** The photo count on the command line: the third argument when it is all digits, else 5. */
  function NumPhotosArg(argv: seq<string>): (n: nat)
    ensures |argv| > 2 && IsDigits(argv[2]) ==> n == DigitsValue(argv[2])
    ensures !(|argv| > 2 && IsDigits(argv[2])) ==> n == DefaultNumPhotos
  {
    if |argv| > 2 && IsDigits(argv[2]) then DigitsValue(argv[2]) else DefaultNumPhotos
  }

  /** Any count written out in decimal is read back as itself. */
  lemma NumPhotosArgRoundTrip(program: string, person: string, n: nat, rest: seq<string>)
    ensures NumPhotosArg([program, person, ShowNat(n)] + rest) == n
  {
    DigitsValueOfShowNat(n);
  }

  /** Negative counts and words fall back to five photos. */
  lemma NumPhotosArgRejectsSigns(program: string, person: string)
    ensures NumPhotosArg([program, person, "-3"]) == DefaultNumPhotos
    ensures NumPhotosArg([program, person, "five"]) == DefaultNumPhotos
    ensures NumPhotosArg([program, person]) == DefaultNumPhotos
  {
    assert !IsDigit("-3"[0]);
    assert !IsDigit("five"[0]);
  }

  predicate EndsWith(s: string, suffix: string)
  {
    |suffix| <= |s| && s[|s| - |suffix|..] == suffix
  }

  predicate IsPhotoFile(f: string)
  {
    EndsWith(f, ".jpg") || EndsWith(f, ".jpeg") || EndsWith(f, ".png")
  }

  /** The photos `review_photos` shows: the image files of the folder, in listing order. */
  function PhotoFiles(listing: seq<string>): (photos: seq<string>)
    ensures forall i :: 0 <= i < |photos| ==> IsPhotoFile(photos[i]) && photos[i] in listing
    ensures forall f :: f in listing && IsPhotoFile(f) ==> f in photos
    decreases |listing|
  {
    if listing == [] then []
    else
      var rest := PhotoFiles(listing[1..]);
      assert forall f :: f in listing[1..] ==> f in listing;
      if IsPhotoFile(listing[0]) then [listing[0]] + rest else rest
  }

  /** The photos keep the listing's order and repetitions: filtering splits over a split listing. */
  lemma {:induction false} PhotoFilesSplits(l1: seq<string>, l2: seq<string>)
    ensures PhotoFiles(l1 + l2) == PhotoFiles(l1) + PhotoFiles(l2)
    decreases |l1|
  {
    if l1 == [] {
      assert l1 + l2 == l2;
    } else {
      PhotoFilesSplits(l1[1..], l2);
      assert (l1 + l2)[1..] == l1[1..] + l2;
    }
  }

  /** The state of a review: the photos left, the position, and the photos deleted. */
  datatype Review = Review(photos: seq<string>, idx: nat, deleted: seq<string>)

  /**
   * The review loop from `r` on: an unreadable photo is skipped; otherwise
   * the next key decides: 'n' moves on, 'd' deletes the shown photo and
   * stays, 'q' stops, any other key shows the same photo again. It ends
   * when every photo is passed, on 'q', or when the keys run out.
   */
  function ReviewRun(r: Review, readable: string -> bool, keys: seq<char>): (e: Review)
    ensures |e.photos| + |e.deleted| == |r.photos| + |r.deleted|
    decreases |r.photos| - r.idx + |keys|
  {
    if r.idx >= |r.photos| then r
    else if !readable(r.photos[r.idx]) then ReviewRun(r.(idx := r.idx + 1), readable, keys)
    else if keys == [] || keys[0] == QuitKey then r
    else if keys[0] == NextKey then ReviewRun(r.(idx := r.idx + 1), readable, keys[1..])
    else if keys[0] == DeleteKey then
      ReviewRun(Review(r.photos[..r.idx] + r.photos[r.idx + 1..], r.idx,
                       r.deleted + [r.photos[r.idx]]), readable, keys[1..])
    else ReviewRun(r, readable, keys[1..])
  }

  /** Nothing is lost or invented: the photos left and the photos deleted are the photos reviewed. */
  predicate Conserves(start: seq<string>, r: Review)
  {
    multiset(r.photos) + multiset(r.deleted) == multiset(start)
  }

  /** Every deletion is of a photo that was shown, so unreadable photos are never deleted. */
  predicate DeletesShown(r: Review, readable: string -> bool)
  {
    forall i :: 0 <= i < |r.deleted| ==> readable(r.deleted[i])
  }

  lemma {:induction false} ReviewRunConserves(start: seq<string>, r: Review, readable: string -> bool, keys: seq<char>)
    requires Conserves(start, r) && DeletesShown(r, readable)
    ensures Conserves(start, ReviewRun(r, readable, keys)) && DeletesShown(ReviewRun(r, readable, keys), readable)
    decreases |r.photos| - r.idx + |keys|
  {
    if r.idx >= |r.photos| {
    } else if !readable(r.photos[r.idx]) {
      ReviewRunConserves(start, r.(idx := r.idx + 1), readable, keys);
    } else if keys == [] || keys[0] == QuitKey {
    } else if keys[0] == NextKey {
      ReviewRunConserves(start, r.(idx := r.idx + 1), readable, keys[1..]);
    } else if keys[0] == DeleteKey {
      var next := Review(r.photos[..r.idx] + r.photos[r.idx + 1..], r.idx, r.deleted + [r.photos[r.idx]]);
      DeleteConserves(start, r, readable);
      ReviewRunConserves(start, next, readable, keys[1..]);
    } else {
      ReviewRunConserves(start, r, readable, keys[1..]);
    }
  }

  /** Deleting the shown photo moves it from the photos left to the photos deleted. */
  lemma DeleteConserves(start: seq<string>, r: Review, readable: string -> bool)
    requires r.idx < |r.photos| && readable(r.photos[r.idx])
    requires Conserves(start, r) && DeletesShown(r, readable)
    ensures var next := Review(r.photos[..r.idx] + r.photos[r.idx + 1..], r.idx, r.deleted + [r.photos[r.idx]]);
            Conserves(start, next) && DeletesShown(next, readable)
  {
    var p := r.photos;
    assert p == p[..r.idx] + [p[r.idx]] + p[r.idx + 1..];
    assert multiset(p) == multiset(p[..r.idx]) + multiset([p[r.idx]]) + multiset(p[r.idx + 1..]) by {
      calc {
        multiset(p);
        multiset(p[..r.idx] + [p[r.idx]] + p[r.idx + 1..]);
        multiset(p[..r.idx] + [p[r.idx]]) + multiset(p[r.idx + 1..]);
      }
    }
  }

  /** Pressing 'q' at the first readable photo keeps every photo. */
  lemma QuitKeepsAll(photos: seq<string>, readable: string -> bool, keys: seq<char>)
    requires |photos| > 0 && readable(photos[0]) && |keys| > 0 && keys[0] == QuitKey
    ensures ReviewRun(Review(photos, 0, []), readable, keys).photos == photos
  {
  }

  /**
   * `review_photos` on the photos of a folder: returns the photos left and
   * the photos deleted, in the order of deletion.
   */
  method ReviewPhotos(photos: seq<string>, readable: string -> bool, keys: seq<char>)
    returns (remaining: seq<string>, deleted: seq<string>)
    ensures ReviewRun(Review(photos, 0, []), readable, keys) == Review(remaining, ReviewRun(Review(photos, 0, []), readable, keys).idx, deleted)
    ensures multiset(remaining) + multiset(deleted) == multiset(photos)
    ensures forall i :: 0 <= i < |deleted| ==> readable(deleted[i])
  {
    remaining, deleted := photos, [];
    var idx := 0;
    var k := 0;
    ReviewRunConserves(photos, Review(photos, 0, []), readable, keys);
    while idx < |remaining|
      invariant 0 <= k <= |keys| && idx <= |remaining|
      invariant ReviewRun(Review(photos, 0, []), readable, keys) == ReviewRun(Review(remaining, idx, deleted), readable, keys[k..])
      decreases |remaining| - idx + |keys| - k
    {
      if !readable(remaining[idx]) {
        idx := idx + 1;
        continue;
      }
      if k == |keys| {
        break;
      }
      var key := keys[k];
      assert keys[k..][0] == key && keys[k..][1..] == keys[k + 1..];
      k := k + 1;
      if key == NextKey {
        idx := idx + 1;
      } else if key == DeleteKey {
        deleted := deleted + [remaining[idx]];
        remaining := remaining[..idx] + remaining[idx + 1..];
      } else if key == QuitKey {
        break;
      }
    }
  }
}
