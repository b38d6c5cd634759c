/**
 * The HTTP handlers of the face-management server: adding a face from an
 * uploaded or base64 image, listing and deleting a user's faces, and
 * capturing a face from the camera stream. The request is a value; the
 * `familiar_faces` table is a sequence of rows; what the image decoder and
 * face encoder find in an image, and whether the database write succeeds,
 * are inputs.
 */
module Api {
  import opened Util
  import Streams

  /** The parts of a request the handlers read. */
  datatype Request = Request(
    userHeader: Option<string>,      // the X-User-Id header
    isJson: bool,
    json: map<string, string>,
    form: map<string, string>,
    files: set<string>,
    args: map<string, string>)

  /** What face detection and encoding made of an image. */
  datatype Scan = Raised(error: string) | NoFace | NoEncoding | Encoded(encoding: seq<real>)

  /** A row of `familiar_faces`. */
  datatype Face = Face(id: string, userId: string, name: string, encoding: seq<real>)

  /** A response: success carrying the stored name, or an error status and message. */
  datatype Reply = Ok(name: string) | Failure(status: nat, message: string)

  /** Where `add_face` takes its image from. */
  datatype ImageSource = Upload | Base64(payload: string)

  const MissingIdentity: string := "user_id and name required"
  const MissingImage: string := "image file or image_base64 required"
  const MissingUser: string := "user_id required"
  const NoFaceMessage: string := "No face detected"
  const NoStreamFaceMessage: string := "No face detected in stream. Position yourself in front of the camera."
  const NoEncodingMessage: string := "Could not encode face"
  const NoFrameMessage: string := "Failed to capture frame from stream"
  const NoStreamPrefix: string := "Cannot connect to stream: "

  /** The frames read and thrown away before the capture frame. */
  const WarmUpFrames: nat := 5

  function Get(m: map<string, string>, key: string): (r: Option<string>)
    ensures r.Some? <==> key in m
    ensures r.Some? ==> r.value == m[key]
  {
    if key in m then Some(m[key]) else None
  }

  /** `request.json.get(key) if request.is_json else None` */
  function JsonGet(req: Request, key: string): (r: Option<string>)
    ensures r.Some? <==> req.isJson && key in req.json
    ensures r.Some? ==> r.value == req.json[key]
  {
    if req.isJson then Get(req.json, key) else None
  }

  /** The user id of `add_face`: the header, then the JSON body, then the form. */
  function AddFaceUser(req: Request): (u: Option<string>)
    ensures Truthy(req.userHeader) ==> u == req.userHeader
    ensures !Truthy(req.userHeader) && Truthy(JsonGet(req, "user_id")) ==> u == JsonGet(req, "user_id")
    ensures !Truthy(req.userHeader) && !Truthy(JsonGet(req, "user_id")) ==> u == Get(req.form, "user_id")
  {
    Or(Or(req.userHeader, JsonGet(req, "user_id")), Get(req.form, "user_id"))
  }

  /** The name of `add_face`: the JSON body, then the form. */
  function AddFaceName(req: Request): (n: Option<string>)
    ensures Truthy(JsonGet(req, "name")) ==> n == JsonGet(req, "name")
    ensures !Truthy(JsonGet(req, "name")) ==> n == Get(req.form, "name")
  {
    Or(JsonGet(req, "name"), Get(req.form, "name"))
  }

  /** The first position of `c` in `s`, `|s|` when there is none. */
  function IndexOf(s: string, c: char): (k: nat)
    ensures k <= |s|
    ensures forall i :: 0 <= i < k ==> s[i] != c
    ensures k < |s| ==> s[k] == c
    decreases |s|
  {
    if s == [] then 0 else if s[0] == c then 0 else 1 + IndexOf(s[1..], c)
  }

  /**
   * The base64 payload with any data-URL header removed: everything after
   * the first comma, or the whole string when it has none.
   */
  function StripDataUrl(b64: string): (p: string)
    ensures (forall i :: 0 <= i < |b64| ==> b64[i] != ',') ==> p == b64
    ensures (exists i :: 0 <= i < |b64| && b64[i] == ',') ==>
              exists k :: 0 <= k < |b64| && b64[k] == ',' && (forall i :: 0 <= i < k ==> b64[i] != ',')
                          && b64 == b64[..k] + "," + p
  {
    var k := IndexOf(b64, ',');
    if k < |b64| then
      assert b64 == b64[..k] + "," + b64[k + 1..];
      b64[k + 1..]
    else b64
  }

  /** A data-URL header, which never contains a comma, is cut off whatever the payload. */
  lemma StripDataUrlHeader(header: string, payload: string)
    requires forall i :: 0 <= i < |header| ==> header[i] != ','
    ensures StripDataUrl(header + "," + payload) == payload
  {
    var s := header + "," + payload;
    assert s[|header|] == ',';
    assert forall i :: 0 <= i < |header| ==> s[i] == header[i];
    assert IndexOf(s, ',') == |header| by {
      FirstCommaAt(s, |header|);
    }
    assert s[|header| + 1..] == payload;
  }

  lemma {:induction false} FirstCommaAt(s: string, k: nat)
    requires k < |s| && s[k] == ','
    requires forall i :: 0 <= i < k ==> s[i] != ','
    ensures IndexOf(s, ',') == k
    decreases k
  {
    if k > 0 {
      FirstCommaAt(s[1..], k - 1);
    }
  }

  /** The image `add_face` decodes: the uploaded file first, then the JSON base64 string. */
  function ImageOf(req: Request): (src: Option<ImageSource>)
    ensures "image" in req.files ==> src == Some(Upload)
    ensures "image" !in req.files ==>
              (src.Some? <==> Truthy(JsonGet(req, "image_base64")))
    ensures src.Some? && src.value.Base64? ==> src.value.payload == StripDataUrl(req.json["image_base64"])
  {
    if "image" in req.files then Some(Upload)
    else if Truthy(JsonGet(req, "image_base64")) then Some(Base64(StripDataUrl(req.json["image_base64"])))
    else None
  }

  /** The result of `add_face` and the row it adds, if any. */
  datatype Added = Added(reply: Reply, row: Option<Face>)

  /**
   * The shared tail of both face handlers once an image is in hand: a scan
   * that raised is a 500, no face or no encoding a 400 (with `noFace` as the
   * handler's message), and an encoded face is inserted as a row of `user`
   * named `name`, which fails with a 500 when the insert does.
   */
  function Store(scanned: Scan, noFace: string, user: string, name: string,
                 newId: string, stored: bool, storeError: string): (a: Added)
    ensures scanned.Raised? ==> a == Added(Failure(500, scanned.error), None)
    ensures scanned.NoFace? ==> a == Added(Failure(400, noFace), None)
    ensures scanned.NoEncoding? ==> a == Added(Failure(400, NoEncodingMessage), None)
    ensures scanned.Encoded? && !stored ==> a == Added(Failure(500, storeError), None)
    ensures a.row.Some? <==> a.reply.Ok?
    ensures a.reply.Ok? <==> scanned.Encoded? && stored
    ensures a.reply.Ok? ==> a.reply.name == name && a.row.value == Face(newId, user, name, scanned.encoding)
  {
    match scanned
    case Raised(e) => Added(Failure(500, e), None)
    case NoFace => Added(Failure(400, noFace), None)
    case NoEncoding => Added(Failure(400, NoEncodingMessage), None)
    case Encoded(enc) =>
      if stored then Added(Ok(name), Some(Face(newId, user, name, enc)))
      else Added(Failure(500, storeError), None)
  }

  /**
   * `add_face`: validate the identity and the image, scan the image, store
   * the first encoding. `scan` is what the vision libraries make of the
   * image, `newId` the id the table assigns, `stored` whether the insert
   * succeeds (with `storeError` as its message otherwise).
   */
  function AddFace(req: Request, scan: ImageSource -> Scan, newId: string, stored: bool, storeError: string): (a: Added)
    ensures !Truthy(AddFaceUser(req)) || !Truthy(AddFaceName(req)) ==> a == Added(Failure(400, MissingIdentity), None)
    ensures Truthy(AddFaceUser(req)) && Truthy(AddFaceName(req)) && ImageOf(req).None? ==>
              a == Added(Failure(400, MissingImage), None)
    ensures Truthy(AddFaceUser(req)) && Truthy(AddFaceName(req)) && ImageOf(req).Some? ==>
              var scanned := scan(ImageOf(req).value);
              && (scanned.Raised? ==> a == Added(Failure(500, scanned.error), None))
              && (scanned.NoFace? ==> a == Added(Failure(400, NoFaceMessage), None))
              && (scanned.NoEncoding? ==> a == Added(Failure(400, NoEncodingMessage), None))
              && (scanned.Encoded? && !stored ==> a == Added(Failure(500, storeError), None))
              && (scanned.Encoded? && stored ==>
                    a == Added(Ok(AddFaceName(req).value),
                               Some(Face(newId, AddFaceUser(req).value, AddFaceName(req).value, scanned.encoding))))
    ensures a.row.Some? <==> a.reply.Ok?
    ensures a.reply.Ok? ==> && a.reply.name == AddFaceName(req).value
                            && a.row.value.userId == AddFaceUser(req).value
                            && a.row.value.name == AddFaceName(req).value
                            && ImageOf(req).Some? && scan(ImageOf(req).value) == Encoded(a.row.value.encoding)
  {
    var user := AddFaceUser(req);
    var name := AddFaceName(req);
    if !Truthy(user) || !Truthy(name) then Added(Failure(400, MissingIdentity), None)
    else match ImageOf(req)
      case None => Added(Failure(400, MissingImage), None)
      case Some(src) => Store(scan(src), NoFaceMessage, user.value, name.value, newId, stored, storeError)
  }

  /** An uploaded file wins over a base64 string sent along with it. */
  lemma UploadPreferred(req: Request, scan: ImageSource -> Scan, newId: string, stored: bool, storeError: string)
    requires "image" in req.files && req.isJson && Truthy(JsonGet(req, "image_base64"))
    requires Truthy(AddFaceUser(req)) && Truthy(AddFaceName(req))
    ensures AddFace(req, scan, newId, stored, storeError).reply.Ok? ==> scan(Upload).Encoded?
  {
  }

  /** The user id of `list_faces` and `delete_face`: the header, then the query string. */
  function QueryUser(req: Request): (u: Option<string>)
    ensures Truthy(req.userHeader) ==> u == req.userHeader
    ensures !Truthy(req.userHeader) ==> u == Get(req.args, "user_id")
  {
    Or(req.userHeader, Get(req.args, "user_id"))
  }

  /** The rows of `table` that belong to `user`, in table order. */
  function FacesOf(table: seq<Face>, user: string): (fs: seq<Face>)
    ensures |fs| <= |table|
    decreases |table|
  {
    if table == [] then []
    else
      var rest := FacesOf(table[1..], user);
      if table[0].userId == user then [table[0]] + rest else rest
  }

  /** The listed rows are exactly the user's rows of the table. */
  lemma {:induction false} FacesOfMeaning(table: seq<Face>, user: string)
    ensures var fs := FacesOf(table, user);
            && (forall i :: 0 <= i < |fs| ==> fs[i].userId == user && fs[i] in table)
            && (forall f :: f in table && f.userId == user ==> f in fs)
    decreases |table|
  {
    if table != [] {
      FacesOfMeaning(table[1..], user);
      FacesOfFirst(table, user);
      assert forall f :: f in table <==> f == table[0] || f in table[1..];
    }
  }

  /** The user's rows keep the table's order and repetitions: filtering splits over a split table. */
  lemma {:induction false} FacesOfSplits(t1: seq<Face>, t2: seq<Face>, user: string)
    ensures FacesOf(t1 + t2, user) == FacesOf(t1, user) + FacesOf(t2, user)
    decreases |t1|
  {
    if t1 == [] {
      assert t1 + t2 == t2;
    } else {
      var t := t1 + t2;
      FacesOfSplits(t1[1..], t2, user);
      assert t[0] == t1[0] && t[1..] == t1[1..] + t2;
      FacesOfFirst(t, user);
      FacesOfFirst(t1, user);
    }
  }

  /** `FacesOf` decides the first row and goes on with the rest. */
  lemma FacesOfFirst(table: seq<Face>, user: string)
    requires table != []
    ensures FacesOf(table, user) == (if table[0].userId == user then [table[0]] else []) + FacesOf(table[1..], user)
  {
  }

  /** What `list_faces` selects of a row: its id and name (the creation time is not modelled). */
  datatype Listing = Listing(id: string, name: string)

  /** The selected columns of each row, in order. */
  function Listings(fs: seq<Face>): (ls: seq<Listing>)
    ensures |ls| == |fs|
    ensures forall i :: 0 <= i < |fs| ==> ls[i] == Listing(fs[i].id, fs[i].name)
  {
    seq(|fs|, i requires 0 <= i < |fs| => Listing(fs[i].id, fs[i].name))
  }

  /**
   * `list_faces`: the caller's faces, or 400 without a user id. `failure` is
   * the message of the exception the database client or the query raises,
   * if any, which the handler answers with a 500.
   */
  function ListFaces(req: Request, table: seq<Face>, failure: Option<string>): (r: Result<seq<Listing>>)
    ensures !Truthy(QueryUser(req)) ==> r == Refused(400, MissingUser)
    ensures Truthy(QueryUser(req)) && failure.Some? ==> r == Refused(500, failure.value)
    ensures Truthy(QueryUser(req)) && failure.None? ==> r == Done(Listings(FacesOf(table, QueryUser(req).value)))
  {
    var user := QueryUser(req);
    if !Truthy(user) then Refused(400, MissingUser)
    else if failure.Some? then Refused(500, failure.value)
    else Done(Listings(FacesOf(table, user.value)))
  }

  /** A handler's outcome that carries data: the data, or an error status and message. */
  datatype Result<T> = Done(value: T) | Refused(status: nat, message: string)

  /** The table without the rows that have id `faceId` and belong to `user`. */
  function Without(table: seq<Face>, faceId: string, user: string): (t: seq<Face>)
    ensures |t| <= |table|
    decreases |table|
  {
    if table == [] then []
    else
      var rest := Without(table[1..], faceId, user);
      if table[0].id == faceId && table[0].userId == user then rest else [table[0]] + rest
  }

  /** A delete removes exactly the rows that match both the id and the user. */
  lemma {:induction false} WithoutMeaning(table: seq<Face>, faceId: string, user: string)
    ensures forall f :: f in Without(table, faceId, user) <==> f in table && !(f.id == faceId && f.userId == user)
    decreases |table|
  {
    if table != [] {
      WithoutMeaning(table[1..], faceId, user);
      WithoutFirst(table, faceId, user);
      assert forall f :: f in table <==> f == table[0] || f in table[1..];
    }
  }

  /** The rows that survive a delete keep the table's order and repetitions. */
  lemma {:induction false} WithoutSplits(t1: seq<Face>, t2: seq<Face>, faceId: string, user: string)
    ensures Without(t1 + t2, faceId, user) == Without(t1, faceId, user) + Without(t2, faceId, user)
    decreases |t1|
  {
    if t1 == [] {
      assert t1 + t2 == t2;
    } else {
      var t := t1 + t2;
      WithoutSplits(t1[1..], t2, faceId, user);
      assert t[0] == t1[0] && t[1..] == t1[1..] + t2;
      WithoutFirst(t, faceId, user);
      WithoutFirst(t1, faceId, user);
    }
  }

  /** `Without` decides the first row and goes on with the rest. */
  lemma WithoutFirst(table: seq<Face>, faceId: string, user: string)
    requires table != []
    ensures Without(table, faceId, user) ==
              (if table[0].id == faceId && table[0].userId == user then [] else [table[0]])
              + Without(table[1..], faceId, user)
  {
  }

  /**
   * `delete_face(face_id)`: the table afterwards, or 400 without a user id,
   * or 500 with the message of the exception the database client or the
   * delete raises (`failure`); a failed delete leaves no new table.
   */
  function DeleteFace(faceId: string, req: Request, table: seq<Face>, failure: Option<string>): (r: Result<seq<Face>>)
    ensures !Truthy(QueryUser(req)) ==> r == Refused(400, MissingUser)
    ensures Truthy(QueryUser(req)) && failure.Some? ==> r == Refused(500, failure.value)
    ensures Truthy(QueryUser(req)) && failure.None? ==> r == Done(Without(table, faceId, QueryUser(req).value))
  {
    var user := QueryUser(req);
    if !Truthy(user) then Refused(400, MissingUser)
    else if failure.Some? then Refused(500, failure.value)
    else Done(Without(table, faceId, user.value))
  }

  /**
   * Deleting is confined to the caller: another user's faces all survive,
   * and the caller's face with that id is gone.
   */
  lemma DeleteOnlyOwnFace(faceId: string, req: Request, table: seq<Face>, f: Face)
    requires Truthy(QueryUser(req)) && f in table
    ensures var t := DeleteFace(faceId, req, table, None).value;
            (f.userId != QueryUser(req).value || f.id != faceId) <==> f in t
  {
    WithoutMeaning(table, faceId, QueryUser(req).value);
  }

  /** Deleting twice is deleting once. */
  lemma {:induction false} DeleteIdempotent(table: seq<Face>, faceId: string, user: string)
    ensures Without(Without(table, faceId, user), faceId, user) == Without(table, faceId, user)
    decreases |table|
  {
    if table != [] {
      DeleteIdempotent(table[1..], faceId, user);
    }
  }

  /** The fields of `capture_face_from_stream`: user id from the header or JSON, the rest from JSON. */
  function CaptureUser(req: Request): (u: Option<string>)
    ensures Truthy(req.userHeader) ==> u == req.userHeader
    ensures !Truthy(req.userHeader) ==> u == JsonGet(req, "user_id")
  {
    Or(req.userHeader, JsonGet(req, "user_id"))
  }

  /**
   * The server's default stream address: `VIDEO_STREAM_URL` when that is set
   * (even to the empty string), else the built-in address.
   */
  function DefaultCaptureUrl(configured: Option<string>): (u: string)
    ensures configured.Some? ==> u == configured.value
    ensures configured.None? ==> u == Streams.DefaultStreamUrl
  {
    if configured.Some? then configured.value else Streams.DefaultStreamUrl
  }

  /**
   * The stream to capture from: the requested one when truthy, else the
   * server's default address, with `configured` the `VIDEO_STREAM_URL` value.
   */
  function CaptureStreamUrl(req: Request, configured: Option<string>): (u: string)
    ensures Truthy(JsonGet(req, "stream_url")) ==> u == req.json["stream_url"]
    ensures !Truthy(JsonGet(req, "stream_url")) ==> u == DefaultCaptureUrl(configured)
  {
    var requested := JsonGet(req, "stream_url");
    if Truthy(requested) then requested.value else DefaultCaptureUrl(configured)
  }

  /** The frame used by a capture: the sixth read, when the stream delivers one. */
  function CaptureFrame<F>(frames: seq<Option<F>>): Option<F>
  {
    if |frames| > WarmUpFrames then frames[WarmUpFrames] else None
  }

  /** The warm-up frames never matter. */
  lemma WarmUpIgnored<F>(frames: seq<Option<F>>, other: seq<Option<F>>)
    requires |frames| >= WarmUpFrames && |other| == WarmUpFrames
    ensures CaptureFrame(other + frames[WarmUpFrames..]) == CaptureFrame(frames)
  {
  }

  /**
   * `capture_face_from_stream` as a function: `opens` says which capture
   * sources open, `frames` are the successive frames of the opened stream
   * (None for a failed read) with what the vision libraries find in each.
   */
  function CaptureFace(req: Request, configured: Option<string>, opens: Streams.Source -> bool,
                       frames: seq<Option<Scan>>, newId: string, stored: bool, storeError: string): (a: Added)
    ensures !Truthy(CaptureUser(req)) || !Truthy(JsonGet(req, "name")) ==> a == Added(Failure(400, MissingIdentity), None)
    ensures Truthy(CaptureUser(req)) && Truthy(JsonGet(req, "name")) ==>
              && (FirstOpening(Streams.ServerPlan(CaptureStreamUrl(req, configured)), opens).None? ==>
                    a == Added(Failure(500, NoStreamPrefix + CaptureStreamUrl(req, configured)), None))
              && (FirstOpening(Streams.ServerPlan(CaptureStreamUrl(req, configured)), opens).Some? ==>
                    && (CaptureFrame(frames).None? ==> a == Added(Failure(500, NoFrameMessage), None))
                    && (CaptureFrame(frames).Some? ==>
                          var scanned := CaptureFrame(frames).value;
                          && (scanned.Raised? ==> a == Added(Failure(500, scanned.error), None))
                          && (scanned.NoFace? ==> a == Added(Failure(400, NoStreamFaceMessage), None))
                          && (scanned.NoEncoding? ==> a == Added(Failure(400, NoEncodingMessage), None))
                          && (scanned.Encoded? && !stored ==> a == Added(Failure(500, storeError), None))
                          && (scanned.Encoded? && stored ==>
                                a == Added(Ok(JsonGet(req, "name").value),
                                           Some(Face(newId, CaptureUser(req).value, JsonGet(req, "name").value,
                                                     scanned.encoding))))))
    ensures a.row.Some? <==> a.reply.Ok?
    ensures a.reply.Ok? ==> && FirstOpening(Streams.ServerPlan(CaptureStreamUrl(req, configured)), opens).Some?
                            && CaptureFrame(frames).Some? && CaptureFrame(frames).value == Encoded(a.row.value.encoding)
                            && a.row.value.userId == CaptureUser(req).value
                            && a.row.value.name == JsonGet(req, "name").value == a.reply.name
  {
    var user := CaptureUser(req);
    var name := JsonGet(req, "name");
    if !Truthy(user) || !Truthy(name) then Added(Failure(400, MissingIdentity), None)
    else
      var url := CaptureStreamUrl(req, configured);
      if FirstOpening(Streams.ServerPlan(url), opens).None? then Added(Failure(500, NoStreamPrefix + url), None)
      else
        FrameOutcome(CaptureFrame(frames), user.value, name.value, newId, stored, storeError)
  }

  /** The outcome of scanning the captured frame: a 500 when the read failed, else the shared tail. */
  function FrameOutcome(frame: Option<Scan>, user: string, name: string,
                        newId: string, stored: bool, storeError: string): (a: Added)
    ensures frame.None? ==> a == Added(Failure(500, NoFrameMessage), None)
    ensures frame.Some? ==> a == Store(frame.value, NoStreamFaceMessage, user, name, newId, stored, storeError)
  {
    if frame.None? then Added(Failure(500, NoFrameMessage), None)
    else Store(frame.value, NoStreamFaceMessage, user, name, newId, stored, storeError)
  }

  /** `capture_face_from_stream`: open the stream, discard the warm-up frames, scan the next one. */
  method CaptureFaceFromStream(req: Request, configured: Option<string>, opens: Streams.Source -> bool,
                               frames: seq<Option<Scan>>, newId: string, stored: bool, storeError: string)
    returns (a: Added)
    ensures a == CaptureFace(req, configured, opens, frames, newId, stored, storeError)
  {
    var user := CaptureUser(req);
    var name := JsonGet(req, "name");
    if !Truthy(user) || !Truthy(name) {
      return Added(Failure(400, MissingIdentity), None);
    }
    var url := CaptureStreamUrl(req, configured);
    var source := Streams.OpenServerStream(url, opens);
    if source.None? {
      return Added(Failure(500, NoStreamPrefix + url), None);
    }
    var frame := ReadAfterWarmUp(frames);
    a := FrameOutcome(frame, user.value, name.value, newId, stored, storeError);
  }

  /**
   * Read and drop the warm-up frames, then read the one to use (None when
   * the read fails). `unread` is what the stream has still to deliver; a
   * read from an exhausted stream yields nothing.
   */
  method ReadAfterWarmUp<F>(frames: seq<Option<F>>) returns (frame: Option<F>)
    ensures frame == CaptureFrame(frames)
    ensures |frames| <= WarmUpFrames ==> frame.None?
  {
    var unread := frames;
    for i := 0 to WarmUpFrames
      invariant unread == if i <= |frames| then frames[i..] else []
    {
      if unread != [] {
        unread := unread[1..];
      }
    }
    frame := if unread != [] then unread[0] else None;
  }
}
