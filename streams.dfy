/**
 * Opening the camera stream. A stream address is either an http(s) MJPEG
 * URL, an rtsp URL or a local camera index; each kind has an ordered list of
 * capture sources to try, and the first one that opens is used. Whether a
 * source opens is the caller's `opens` oracle.
 *
 * The training tool (`webcam_capture.py`) and the server (`api.py`) differ
 * in one point: the server tries a numeric address as a camera index first
 * and then still treats it as a name, the training tool tries numeric
 * addresses only as camera indices, and only when they are not URLs.
 */
module Streams {
  import opened Util

  /** The capture back end requested: any available, or FFMPEG explicitly. */
  datatype Backend = AnyBackend | Ffmpeg

  /** One `cv2.VideoCapture` attempt. */
  datatype Source = Named(url: string, backend: Backend) | Device(index: int)

  /** The default stream address when none is configured. */
  const DefaultStreamUrl: string := "http://raspberrypi.tail56d975.ts.net:8889/cam/"

  predicate IsHttp(u: string)
  {
    StartsWith(u, "http://") || StartsWith(u, "https://")
  }

  predicate IsRtsp(u: string)
  {
    StartsWith(u, "rtsp://")
  }

  /** The MJPEG address variations tried after the plain URL fails with both back ends. */
  function Variations(u: string): (v: seq<string>)
    ensures |v| == 4 && v[0] == u
    ensures v[1] == RStrip(u, '/') + "?action=stream"
    ensures v[2] == RStrip(u, '/') + "/video"
    ensures v[3] == RStrip(u, '/') + "/stream"
  {
    var base := RStrip(u, '/');
    [u, base + "?action=stream", base + "/video", base + "/stream"]
  }

  /** Each variation, opened with any back end. */
  function VariationSources(u: string): (s: seq<Source>)
    ensures |s| == 4
    ensures forall i :: 0 <= i < 4 ==> s[i] == Named(Variations(u)[i], AnyBackend)
  {
    var v := Variations(u);
    [Named(v[0], AnyBackend), Named(v[1], AnyBackend), Named(v[2], AnyBackend), Named(v[3], AnyBackend)]
  }

  /** The attempts for an address by its scheme: http(s), rtsp, or anything else as a name. */
  function SchemePlan(u: string): (p: seq<Source>)
    ensures IsHttp(u) ==> p == [Named(u, Ffmpeg), Named(u, AnyBackend)] + VariationSources(u)
    ensures !IsHttp(u) && IsRtsp(u) ==> p == [Named(u, Ffmpeg)]
    ensures !IsHttp(u) && !IsRtsp(u) ==> p == [Named(u, AnyBackend)]
  {
    if IsHttp(u) then [Named(u, Ffmpeg), Named(u, AnyBackend)] + VariationSources(u)
    else if IsRtsp(u) then [Named(u, Ffmpeg)]
    else [Named(u, AnyBackend)]
  }

  /** The attempts of the training tool's `open_video_stream`, in order. */
  function WebcamPlan(u: string): (p: seq<Source>)
    ensures IsHttp(u) || IsRtsp(u) ==> p == SchemePlan(u)
    ensures !IsHttp(u) && !IsRtsp(u) && ParseInt(u).Some? ==> p == [Device(ParseInt(u).value)]
    ensures !IsHttp(u) && !IsRtsp(u) && ParseInt(u).None? ==> p == [Named(u, AnyBackend)]
  {
    if IsHttp(u) || IsRtsp(u) then SchemePlan(u)
    else match ParseInt(u)
      case Some(id) => [Device(id)]
      case None => [Named(u, AnyBackend)]
  }

  /** The attempts of the server's `open_video_stream`, in order. */
  function ServerPlan(u: string): (p: seq<Source>)
    ensures ParseInt(u).Some? ==> p == [Device(ParseInt(u).value)] + SchemePlan(u)
    ensures ParseInt(u).None? ==> p == SchemePlan(u)
  {
    (if ParseInt(u).Some? then [Device(ParseInt(u).value)] else []) + SchemePlan(u)
  }

  /** A number is never a URL. */
  lemma NumberIsNoUrl(u: string)
    requires ParseInt(u).Some?
    ensures !IsHttp(u) && !IsRtsp(u)
  {
    assert u[0] != 'h' && u[0] != 'r';
  }

  /**
   * The two openers agree on every address except numbers, where the server
   * falls back to opening the number as a name when the camera index fails.
   */
  lemma PlansAgreeExceptNumbers(u: string)
    ensures ParseInt(u).None? ==> ServerPlan(u) == WebcamPlan(u)
    ensures ParseInt(u).Some? ==> WebcamPlan(u) == [Device(ParseInt(u).value)]
                                  && ServerPlan(u) == WebcamPlan(u) + [Named(u, AnyBackend)]
  {
    if ParseInt(u).Some? {
      NumberIsNoUrl(u);
    } else {
      assert [] + SchemePlan(u) == SchemePlan(u);
    }
  }

  /** A trailing slash on a URL changes the first variation only. */
  lemma TrailingSlashOnlyAffectsPlainUrl(u: string)
    ensures Variations(u + "/")[1..] == Variations(u)[1..]
  {
    assert (u + "/")[..|u|] == u;
    assert RStrip(u + "/", '/') == RStrip(u, '/');
  }

  /** The variations of the default stream address. */
  lemma DefaultStreamVariations()
    ensures Variations(DefaultStreamUrl) == [
              "http://raspberrypi.tail56d975.ts.net:8889/cam/",
              "http://raspberrypi.tail56d975.ts.net:8889/cam?action=stream",
              "http://raspberrypi.tail56d975.ts.net:8889/cam/video",
              "http://raspberrypi.tail56d975.ts.net:8889/cam/stream"]
  {
    var base := "http://raspberrypi.tail56d975.ts.net:8889/cam";
    assert DefaultStreamUrl == base + "/";
    assert DefaultStreamUrl[..|DefaultStreamUrl| - 1] == base;
    assert RStrip(DefaultStreamUrl, '/') == RStrip(base, '/');
    assert base[|base| - 1] == 'm';
    assert RStrip(base, '/') == base;
    assert base + "?action=stream" == "http://raspberrypi.tail56d975.ts.net:8889/cam?action=stream";
    assert base + "/video" == "http://raspberrypi.tail56d975.ts.net:8889/cam/video";
    assert base + "/stream" == "http://raspberrypi.tail56d975.ts.net:8889/cam/stream";
  }

  /** The variations of the MJPEG fallback, tried in order until one opens. */
  method OpenVariations(u: string, opens: Source -> bool) returns (r: Option<Source>)
    ensures r == FirstOpening(VariationSources(u), opens)
  {
    var variations := Variations(u);
    r := None;
    var i := 0;
    while i < |variations|
      invariant 0 <= i <= |variations|
      invariant forall j :: 0 <= j < i ==> !opens(VariationSources(u)[j])
    {
      var attempt := Named(variations[i], AnyBackend);
      if opens(attempt) {
        r := Some(attempt);
        assert FirstOpeningIndex(VariationSources(u), opens) == i by {
          FirstIndexIs(VariationSources(u), opens, i);
        }
        return;
      }
      i := i + 1;
    }
  }

  /** The first opening position is `i` when `i` opens and nothing before it does. */
  lemma {:induction false} FirstIndexIs<T>(c: seq<T>, opens: T -> bool, i: nat)
    requires i < |c| && opens(c[i])
    requires forall j :: 0 <= j < i ==> !opens(c[j])
    ensures FirstOpeningIndex(c, opens) == i
    decreases i
  {
    if i > 0 {
      FirstIndexIs(c[1..], opens, i - 1);
    }
  }

  /** The scheme dispatch with the http(s) fallback cascade. */
  method OpenByScheme(u: string, opens: Source -> bool) returns (r: Option<Source>)
    ensures r == FirstOpening(SchemePlan(u), opens)
  {
    if IsHttp(u) {
      if opens(Named(u, Ffmpeg)) {
        return Some(Named(u, Ffmpeg));
      }
      if opens(Named(u, AnyBackend)) {
        return Some(Named(u, AnyBackend));
      }
      r := OpenVariations(u, opens);
      FirstOpeningAppend([Named(u, Ffmpeg), Named(u, AnyBackend)], VariationSources(u), opens);
    } else if IsRtsp(u) {
      r := if opens(Named(u, Ffmpeg)) then Some(Named(u, Ffmpeg)) else None;
    } else {
      r := if opens(Named(u, AnyBackend)) then Some(Named(u, AnyBackend)) else None;
    }
  }

  /**
   * The training tool's `open_video_stream`: the source that opened, or None
   * when the returned capture is closed.
   */
  method OpenWebcamStream(u: string, opens: Source -> bool) returns (r: Option<Source>)
    ensures r == FirstOpening(WebcamPlan(u), opens)
    ensures r.Some? ==> opens(r.value) && r.value in WebcamPlan(u)
  {
    if IsHttp(u) || IsRtsp(u) {
      r := OpenByScheme(u, opens);
    } else {
      var id := ParseInt(u);
      var attempt := if id.Some? then Device(id.value) else Named(u, AnyBackend);
      r := if opens(attempt) then Some(attempt) else None;
    }
  }

  /**
   * The server's `open_video_stream`: a numeric address is tried as a camera
   * index first and returned at once when it opens; otherwise the scheme
   * dispatch follows.
   */
  method OpenServerStream(u: string, opens: Source -> bool) returns (r: Option<Source>)
    ensures r == FirstOpening(ServerPlan(u), opens)
    ensures ParseInt(u).Some? && opens(Device(ParseInt(u).value)) ==> r == Some(Device(ParseInt(u).value))
  {
    var id := ParseInt(u);
    if id.Some? && opens(Device(id.value)) {
      return Some(Device(id.value));
    }
    r := OpenByScheme(u, opens);
    if id.Some? {
      FirstOpeningAppend([Device(id.value)], SchemePlan(u), opens);
    } else {
      assert ServerPlan(u) == SchemePlan(u);
    }
  }
}
