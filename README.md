# Sentryx backend, modelled in Dafny

Sentryx watches a parked vehicle through a camera stream. The Python backend
detects faces in the stream, identifies them against a database of familiar
faces, aims a stepper-motor tracker at them, raises alerts (a snapshot, a
15-second video, an AI threat assessment, SMS messages to emergency
contacts), and serves a small HTTP API to register and list familiar faces.

This project models the decision logic of that backend:

- `cooldown.dfy`: the per-name alert cooldown table (`AlertCooldown`).
- `tracker.dfy`: the coordinate tracker and the stepper command it derives (`CoordinateTracker`).
- `facedb.dfy`: the face database (`FastFaceDatabase`): loading, and identification by a tolerance filter, a majority vote by name and an argmin confidence.
- `pipeline.dfy`: the security system (`FastSecuritySystem`):
  - the frame-skipping detection pass with its cached results and statistics;
  - the alert gate with its video-recording state;
  - the periodic face reload and the end of a recording in the main loop;
  - the motion test.
- `notify.dfy`: the threat level parsed from the assessment, the notification message, the thumbnail link and the SMS bodies.
- `streams.dfy`: the stream-open fallback plans of the training tool and of the API server, and the methods that walk them.
- `capture.dfy`: the training tool: the photo-capture loop driven by key events, the review loop that deletes photos in place, the angle suggestion and the command-line photo count.
- `api.py` handlers (`api.dfy`): field precedence, the 400 replies, data-URL stripping, listing and deleting faces, and capturing a face from the stream.
- `util.dfy`: shared string helpers, Python's `int()` on a string, and "first candidate that opens".

The vision and I/O libraries become inputs:

- the face boxes of a frame and, per box, the distances from its encoding to every known encoding;
- whether a video writer opens with a codec, and whether a capture source opens;
- the areas of the foreground contours;
- the key pressed on each displayed frame;
- what face detection made of an image;
- the rows a database query returns;
- whether an upload or insert succeeded.

Times are seconds passed in as `real` values, because the source reads a floating-point clock. Integers are unbounded; the source's own integers are Python integers, which are unbounded too.

## Model

| member | source | states |
|---|---|---|
| Cooldown.Decide | backend/opencv.py:294-307 | "UNKNOWN" is always allowed and leaves the table alone. Any other name is refused exactly when it has a time less than the cooldown ago. A refusal changes nothing. An allowed call stamps the name with `now` and leaves every other key and time as it was. |
| Cooldown.Reset | backend/opencv.py:309-313 | A truthy name removes that key only, with no error when it is absent. A missing or empty name empties the table. |
| Cooldown.NoSecondAlertWithinCooldown | backend/opencv.py:301-307 | After an allowed alert for a name at t1, calls for other names in between do not matter: the same name is refused at any t2 in [t1, t1 + cooldown). |
| Cooldown.ReplayKeeps | backend/opencv.py:301-307 | Calls for other names never add, remove or change a name's entry. |
| Cooldown.ResetReopens | backend/opencv.py:309-313 | After resetting a name, or the whole table, that name is allowed again at once. |
| Cooldown.AlertCooldown.constructor | backend/opencv.py:290-292 | A new cooldown has the given period and an empty table. |
| Cooldown.AlertCooldown.CanAlert | backend/opencv.py:294-307 | Returns the decision of `Decide` on the old table and leaves the table `Decide` computes. |
| Cooldown.AlertCooldown.ResetCooldown | backend/opencv.py:309-313 | The table becomes `Reset` of the old one. |
| Tracker.TargetFor | backend/opencv.py:324-341 | The centre is the floor of the box midpoint. The distance is non-negative and \|angle\| == 90 * distance. The angle is negative exactly left of the frame centre, and the distance is zero exactly at it. The box is kept. |
| Tracker.StepperCommand | backend/opencv.py:343-357 | Idle exactly without a target. Otherwise the command is locked iff \|angle\| < 5 and carries the target's angle, distance and centre. Priority is high iff distance > 0.7, medium iff 0.3 < distance <= 0.7, and low otherwise (idle included). |
| Tracker.LockedIffNearCentre | backend/opencv.py:326-354 | In pixels: a box is locked on exactly when its centre is less than 1/18 of the half-width from the frame centre. Its priority is high exactly when the centre is more than 7/10 of the half-width away. |
| Tracker.CoordinateTracker.constructor | backend/opencv.py:319-322 | A new tracker has the frame size and no target. |
| Tracker.CoordinateTracker.UpdateTarget | backend/opencv.py:324-341 | The returned target is `TargetFor` the box and becomes the current target. The frame size is unchanged. |
| Tracker.CoordinateTracker.GetStepperCommand | backend/opencv.py:343-357 | The command is `StepperCommand` of the current target, and idle exactly when there is none. |
| FaceDb.FirstVote | backend/opencv.py:184-187 | For a name with votes, the first index that votes for it. |
| FaceDb.VotersAreVoting | backend/opencv.py:184-187 | A name is a key of the `votes` dictionary exactly when it has at least one entry within the tolerance. |
| FaceDb.VotersInFirstVoteOrder | backend/opencv.py:184-187 | The dictionary keys come in the order of their first vote, each once. |
| FaceDb.LeaderIndex | backend/opencv.py:190 | `max` over the items returns a key with the most votes, and no earlier key has as many. |
| FaceDb.ArgMin | backend/opencv.py:172-173 | `argmin` returns the first index of the smallest distance. |
| FaceDb.Identify | backend/opencv.py:160-195 | The reference identification: the closest entry decides whether anyone is named, the vote elects the name, and the closest entry gives the confidence. Without a name the confidence is 0. |
| FaceDb.VotePresent | backend/opencv.py:180-187 | An entry within the tolerance gives its name a vote, so the `votes` dictionary is never empty when the closest entry is within the tolerance. |
| FaceDb.WinnerUnique | backend/opencv.py:190 | At most one name wins the vote with its tie-break. |
| FaceDb.IdentifyEmpty | backend/opencv.py:165-166 | An empty database identifies nobody, with confidence 0. |
| FaceDb.IdentifyNamesIffClose | backend/opencv.py:172-195 | A name is returned exactly when some distance is below 0.50. Without a name the confidence is 0. |
| FaceDb.IdentifyConfidence | backend/opencv.py:172-191 | With a name, the confidence is 1 minus the smallest distance: it is at least 1 minus every distance and equals 1 minus one of them. |
| FaceDb.IdentifyElectsWinner | backend/opencv.py:184-190 | The returned name has the most votes, and a tie goes to the name voted for first. |
| FaceDb.ConfidenceFromClosestEntry | backend/opencv.py:190-191 | The confidence can come from another name's entry: one close "A" and two farther "B" entries elect "B" with A's confidence. |
| FaceDb.IdentifiedNameIsHeld | backend/opencv.py:184-193 | A returned name is one of the names held. |
| FaceDb.ClosestEntry | backend/opencv.py:172 | The loop finding the minimum returns `ArgMin`. |
| FaceDb.TallyVotes | backend/opencv.py:180-187 | The loop builds the dictionary of vote counts, with its keys in insertion order. |
| FaceDb.MostVoted | backend/opencv.py:190 | The loop over the items returns `LeaderIndex`. |
| FaceDb.IdentifyFast | backend/opencv.py:160-195 | The imperative identification returns exactly `Identify`. |
| FaceDb.LoadSource | backend/opencv.py:58-82 | The rows come from the remote table when it returned at least one row, and otherwise from the local file. |
| FaceDb.LoadNeverDrops | backend/opencv.py:62-65 | As written (`LoadDatabase` appends remote rows): a name held is never dropped by a later load. After two loads of the same rows, every name is held as often as before plus twice per row carrying it, so its votes double. |
| FaceDb.DeletedFaceStillIdentified | backend/opencv.py:62-65 | As written, a face deleted from the table after start-up is still identified after the reload. |
| FaceDb.ReloadMirrorsTable | backend/opencv.py:62-65 | After a replacing load, each name is held exactly as often as table rows carry it, so it is held at all exactly when some row carries it. |
| FaceDb.ReloadForgetsDeleted | backend/opencv.py:62-65 | After a replacing load, a name without a row is never identified. |
| FaceDb.FastFaceDatabase.constructor | backend/opencv.py:48-54 | A new database holds exactly the rows of `LoadSource`, or nothing. |
| FaceDb.FastFaceDatabase.LoadDatabase | backend/opencv.py:56-82 | As written: remote rows are appended to the held lists; otherwise the local file replaces them; with neither, nothing changes. |
| FaceDb.FastFaceDatabase.ReloadDatabase | backend/opencv.py:56-82 | Corrected: the lists end up holding exactly the rows of `LoadSource`. |
| FaceDb.FastFaceDatabase.LoadRemoteRows | backend/opencv.py:62-65 | Each row's name and encoding are appended to the parallel lists, in row order. |
| FaceDb.FastFaceDatabase.ReloadRows | backend/opencv.py:62-65 | Corrected: the lists become exactly the rows' names and encodings. |
| FaceDb.FastFaceDatabase.IdentifyFace | backend/opencv.py:160-195 | Identification against the held names is `Identify`. |
| Pipeline.TruncFifth | backend/opencv.py:506-509 | `int()` of a fifth truncates toward zero: for a >= 0 the result n is non-negative with 5n <= a < 5n + 5, and for a < 0 it is non-positive with 5n - 5 < a <= 5n. |
| Pipeline.SliceLength | backend/opencv.py:511-514 | A numpy slice is never longer than its axis, and inside the axis it has length stop - start. |
| Pipeline.RegionLargeEnough | backend/opencv.py:504-515 | The size test on the box widened by a fifth each way and clipped to the frame. A frame under 40 pixels either way keeps no box. |
| Pipeline.LargeBoxInFrameKept | backend/opencv.py:504-515 | A box inside the frame that is at least 40 pixels both ways is never skipped. |
| Pipeline.MatchFor | backend/opencv.py:517-538 | A box is named only when it was encoded and compared with every known encoding, and then its match is `Identify`. |
| Pipeline.PersonFor | backend/opencv.py:543-550 | The person entry of one box keeps the box. An entry that is not known shows "UNKNOWN" with confidence 0. |
| Pipeline.Kept | backend/opencv.py:492-515 | Skipping boxes never yields more boxes than the frame has. |
| Pipeline.KeptMeaning | backend/opencv.py:492-515 | The kept boxes are exactly the boxes whose widened, clipped region is at least 40 by 40: every kept box has such a region, and every box with one is kept. |
| Pipeline.KeptSplits | backend/opencv.py:492-515 | The box test is made box by box: keeping the boxes of two runs of a frame gives each run's kept boxes one after the other. So the kept boxes keep the frame's order and repetitions. |
| Pipeline.PersonForMeaning | backend/opencv.py:517-551 | A person entry is known exactly when the box was encoded and some distance is below 0.50. A known entry shows the elected name, or "UNKNOWN" when that name is empty. An unknown entry shows "UNKNOWN" with confidence 0. The tracker aims at the box. |
| Pipeline.Persons | backend/opencv.py:540-551 | One person entry per kept box, in order. |
| Pipeline.NamedCount | backend/opencv.py:553-557 | At most one known person per kept box. |
| Pipeline.NamedCountMeaning | backend/opencv.py:553-557 | `known_persons` grows by exactly the number of kept boxes whose name is truthy, counted as a set of positions. |
| Pipeline.ProcessedFrames | backend/opencv.py:452-459 | The frames processed among the first `count`: those whose number is a multiple of N. Never more than `count`. |
| Pipeline.ProcessedFramesCount | backend/opencv.py:452-459 | After `count` calls, exactly `count / \|n\|` frames were processed. |
| Pipeline.MotionPixelsAdditive | backend/opencv.py:232-236 | Contour areas add up independently across batches of contours. |
| Pipeline.MotionPixels | backend/opencv.py:232-236 | The summed area of the contours above 500 pixels, which is never negative. |
| Pipeline.SmallContoursIgnored | backend/opencv.py:233-237 | Contours of at most 500 pixels never make motion. |
| Pipeline.DetectMotion | backend/opencv.py:226-237 | Motion is reported exactly when the contours above 500 pixels cover more than the sensitivity. |
| Pipeline.FastSecuritySystem.constructor | backend/opencv.py:370-424 | A new system has zero counters and statistics, no cached detections, no recording and a fresh cooldown and tracker. Its database holds what its first load found. Its invariant holds. |
| Pipeline.FastSecuritySystem.DetectAndRecognize | backend/opencv.py:448-562 | The frame counter grows by one, and skipped + processed == frame count is kept. A skipped frame returns the cached list and changes only `frames_skipped` and the frame counter. A processed frame returns one entry per kept box and caches it. The statistics grow by the kept boxes, split into known and unknown, so total == known + unknown stays true. The tracker aims at the last kept box. The recording state, the alert count and the last reload time never change. |
| Pipeline.FastSecuritySystem.ProcessFrame | backend/opencv.py:459-562 | A frame that is not skipped returns `Persons` of the kept boxes and caches it. `frames_processed` grows by one and the other statistics grow by the kept boxes, split into known and unknown. The tracker aims at the last kept box. The frame counter, the recording state and the last reload time do not change. |
| Pipeline.FastSecuritySystem.RecognizeFaces | backend/opencv.py:492-557 | The loop yields `Persons` of the kept boxes and counts the named ones. The tracker's target is the last kept box. |
| Pipeline.FastSecuritySystem.ConsiderFace | backend/opencv.py:492-515 | One pass of the box loop keeps the box exactly when `Kept` does. The person list, the named count and the tracker's target stay those of the kept prefix. |
| Pipeline.FastSecuritySystem.RecognizeFace | backend/opencv.py:517-557 | One kept box adds its person entry, counts it when named and becomes the target. |
| Pipeline.FastSecuritySystem.TriggerAlert | backend/opencv.py:591-666 | The cooldown is consulted and stamped first. The result is true exactly when it allows, no video is recording and a codec opens. `alerts_sent` grows by one exactly then. `recording` becomes true only on that path, which sets the start time and the codec. Otherwise the start time and the codec stay. The frame counter, the cached detections and the last reload time never change. |
| Pipeline.FastSecuritySystem.StartRecording | backend/opencv.py:598-647 | The recording starts exactly when one of the four codecs opens; the first one that does is used. The start time becomes `now` and `alerts_sent` grows by one exactly then. The other statistics, the frame counter, the cached detections and the last reload time are unchanged. |
| Pipeline.FastSecuritySystem.ReloadFacesIfDue | backend/opencv.py:1118-1120 | The database reloads exactly when more than the interval has passed since the last load. The reload time then becomes `now`, and the names and encodings held are exactly the loaded rows' (the corrected reload, see Findings). With nothing to load, or no reload, they stay. The statistics, the frame counter, the cached detections and the recording state never change. |
| Pipeline.FastSecuritySystem.ReloadFacesIfDueAsWritten | backend/opencv.py:1118-1120 | The same reload as the source writes it, exactly when more than the interval has passed. The names and encodings of remote rows are appended to those held. Otherwise the local file replaces them, or nothing changes. The statistics, the frame counter, the cached detections and the recording state never change. |
| Pipeline.FastSecuritySystem.FinishRecordingIfDue | backend/opencv.py:1131-1142 | A recording stops exactly when it has run longer than 15 seconds, and the writer is then released. The statistics, the start time, the frame counter, the cached detections and the last reload time never change. |
| Notify.ThreatLevel | backend/opencv.py:689-697 | A missing or empty assessment gives None. Otherwise HIGH, MEDIUM or LOW follow from the markers in the upper-cased text, HIGH before MEDIUM before LOW, with None when there is no marker; each case is stated both ways. |
| Notify.ThreatLevelIgnoresCase | backend/opencv.py:692-697 | Upper-casing the assessment first does not change the level. |
| Notify.HighMarkerAnywhere | backend/opencv.py:692-693 | "threat: high" in any case, anywhere in the text, gives HIGH. |
| Notify.NotificationMessage | backend/opencv.py:818-824 | The message is the assessment when there is one. Otherwise it is "Known person detected: " followed by the identity, or the unknown-person sentence. It is never empty. |
| Notify.BackendUrl | backend/opencv.py:827 | The configured backend address, or http://localhost:5000. |
| Notify.ThumbnailUrl | backend/opencv.py:828 | A link exists exactly when there is a thumbnail file name, and it is the backend address, then the media path, then the name. |
| Notify.SmsBody | backend/opencv.py:863-873 | The body starts with the first min(\|message\|, 120) characters. The view link follows exactly when there is a thumbnail URL. |
| Notify.SmsKeepsShortMessages | backend/opencv.py:864-873 | The text part never exceeds 120 characters, and a message of at most 120 characters is sent whole. |
| Notify.SmsDeliveries | backend/opencv.py:833-885 | Nothing is sent without a user id or credentials. Every message carries the same body and goes to a non-empty phone number. There is at most one message per contact. |
| Notify.DeliveriesReachContacts | backend/opencv.py:866-879 | A phone number gets the message exactly when some contact has it. |
| Streams.Variations | backend/webcam_capture.py:64-69 | The four MJPEG variations, in order: the URL, then the URL without trailing slashes followed by `?action=stream`, `/video` and `/stream`. |
| Streams.SchemePlan | backend/webcam_capture.py:55-76 | An http(s) address tries FFMPEG, then any back end, then the variations. An rtsp address tries FFMPEG only. Anything else is opened as a name. |
| Streams.WebcamPlan | backend/webcam_capture.py:55-83 | URLs follow the scheme plan. A non-URL that `int()` accepts is opened as a camera index, and any other string as a name. |
| Streams.ServerPlan | backend/api.py:125-154 | A numeric address is tried as a camera index first, then the scheme plan follows. |
| Streams.PlansAgreeExceptNumbers | backend/api.py:125-154 | The two openers try the same sources except for numbers, where the server also tries the number as a name afterwards. |
| Streams.NumberIsNoUrl | backend/webcam_capture.py:75-83 | A string `int()` accepts is never an http(s) or rtsp URL, so the index path is reached only for non-URLs. |
| Streams.TrailingSlashOnlyAffectsPlainUrl | backend/webcam_capture.py:64-69 | A trailing slash changes only the first variation. |
| Streams.DefaultStreamVariations | backend/api.py:141-146 | The variations of the default stream address, written out. |
| Streams.OpenVariations | backend/webcam_capture.py:70-74 | The loop returns the first variation that opens, or none. |
| Streams.OpenByScheme | backend/webcam_capture.py:55-76 | The dispatch returns the first source of the scheme plan that opens. |
| Streams.OpenWebcamStream | backend/webcam_capture.py:43-92 | The training tool opens the first source of its plan that opens, and only a source of its plan. |
| Streams.OpenServerStream | backend/api.py:121-159 | The server opens the first source of its plan that opens. An opening camera index returns at once. |
| Util.FirstOpening | backend/webcam_capture.py:70-74 | None exactly when no candidate opens. Otherwise the result opens. |
| Util.FirstOpeningAppend | backend/opencv.py:622-627 | A fallback list split in two opens the first part's source when it has one, and otherwise the second part's. |
| Util.OpenFirst | backend/opencv.py:620-627 | The codec loop returns the first candidate that opens. |
| Util.ParseInt | backend/webcam_capture.py:79-83 | `int()` accepts only a non-empty string starting with a digit or a sign, and accepts every digit string. A sign followed by more text is accepted exactly when that text is all digits. A string starting with '-' reads as at most 0, and any other accepted string as at least 0. |
| Util.ParseIntOfShowNat | backend/api.py:126-128 | The decimal form of a number parses back to it. |
| Util.ParseIntSigned | backend/api.py:126-128 | A '-' in front of a digit string negates its value, and a '+' keeps it. So `int("-1")` is the camera index -1, not 0. |
| Util.ParseIntOfSignedShowNat | backend/webcam_capture.py:79-83 | A number written in decimal with a '-' or '+' in front parses back to minus the number, or to the number. |
| Util.ParseIntLeadingZero | backend/webcam_capture.py:79-83 | A leading zero does not change the value of a digit string: "07" opens the same camera as "7". |
| Util.RStrip | backend/webcam_capture.py:66-68 | `rstrip` removes exactly the trailing run of the character. |
| Capture.Step | backend/webcam_capture.py:255-279 | One frame: `count` grows exactly on SPACE with a face and an encoding. `uploaded_count` grows exactly then, when there is a user id and the upload succeeds. 'q' ends the loop. |
| Capture.Run | backend/webcam_capture.py:214-279 | The capture loop over a sequence of passes. It stops after 'q', at the target count, or when the passes run out. The counters never decrease, and a session that has already stopped stays as it is. |
| Capture.RunBounded | backend/webcam_capture.py:214-279 | `uploaded_count <= count <= num_photos` holds throughout. No upload is counted without a user id. |
| Capture.RunCountsCaptures | backend/webcam_capture.py:214-279 | Without 'q', the loop ends with `count` equal to the number of captures, capped at `num_photos`. |
| Capture.CaptureTrainingPhotos | backend/webcam_capture.py:199-279 | The loop's counters are those of the key-event run. `uploaded <= count <= num_photos`, and nothing is uploaded without a user id. |
| Capture.Suggestion | backend/webcam_capture.py:246-249 | "Try: " plus the angle for the first five photos, then "Keep varying angle". |
| Capture.NumPhotosArg | backend/webcam_capture.py:514 | The second argument's value when it is all digits, otherwise 5. |
| Capture.NumPhotosArgRoundTrip | backend/webcam_capture.py:514 | Any count written in decimal is read back. |
| Capture.NumPhotosArgRejectsSigns | backend/webcam_capture.py:514 | A signed number, a word or a missing argument gives 5. |
| Capture.PhotoFiles | backend/webcam_capture.py:368 | The listing's .jpg, .jpeg and .png files, and only those. |
| Capture.PhotoFilesSplits | backend/webcam_capture.py:368 | The filter splits over a split listing, so the photos keep the listing's order and repetitions. |
| Capture.ReviewRun | backend/webcam_capture.py:379-406 | The review loop over a sequence of keys. The remaining and deleted photos always number as many as at the start. |
| Capture.ReviewRunConserves | backend/webcam_capture.py:379-406 | Through the review, the remaining and deleted photos together are the photos started with, and only readable photos are deleted. |
| Capture.DeleteConserves | backend/webcam_capture.py:400-403 | Deleting the photo shown moves it from the remaining list to the deleted ones, so the two still make up the photos started with. |
| Capture.QuitKeepsAll | backend/webcam_capture.py:397-406 | 'q' on the first photo keeps every photo. |
| Capture.ReviewPhotos | backend/webcam_capture.py:377-409 | The in-place loop ends in the state of the key-event run. Remaining plus deleted photos are a permutation of the photos started with. Every deleted photo was readable. |
| Api.Get | backend/api.py:83 | `dict.get`: present exactly for a key of the map, with its value. |
| Api.JsonGet | backend/api.py:32 | A JSON field is read only from a JSON request. |
| Api.AddFaceUser | backend/api.py:30-34 | The user id comes from the X-User-Id header, then the JSON body, then the form. |
| Api.AddFaceName | backend/api.py:35-38 | The name comes from the JSON body, then the form. |
| Api.IndexOf | backend/api.py:52-53 | The first position of a character, or the length when it is absent. |
| Api.StripDataUrl | backend/api.py:52-53 | A string without a comma is unchanged. Otherwise the result is everything after the first comma. |
| Api.StripDataUrlHeader | backend/api.py:52-53 | A comma-free header and its comma are cut off, whatever the payload holds. |
| Api.ImageOf | backend/api.py:42-54 | An uploaded file is used first. Otherwise a truthy `image_base64` is stripped of its data-URL header. With neither there is no image. |
| Api.Store | backend/api.py:60-78 | A scan that raised gives 500 with its message. No face or no encoding gives 400. A failed insert gives 500. OK exactly when the face was encoded and stored, and then the row holds the caller's id, the name and the encoding. |
| Api.AddFace | backend/api.py:29-78 | 400 without a user id or name. 400 without an image. 400 when no face is found or none encodes. 500 when the scan or the insert raises. A complete request whose image encodes and whose insert succeeds gets OK with the name and a row of the caller's id, the name and the encoding. A row exactly on OK. |
| Api.UploadPreferred | backend/api.py:42-48 | When both a file and a base64 string are sent, success means the uploaded file was the one encoded. |
| Api.QueryUser | backend/api.py:83 | The user id comes from the header, then the query string. |
| Api.FacesOf | backend/api.py:89 | The listing is never longer than the table. |
| Api.FacesOfMeaning | backend/api.py:89 | Exactly the user's rows: every listed row is the user's and in the table, and every row of the user is listed. |
| Api.FacesOfSplits | backend/api.py:89 | The user's rows of a split table are those of each part, one after the other, in table order. |
| Api.Listings | backend/api.py:89 | One listing per row, in order, holding only the row's id and name. |
| Api.ListFaces | backend/api.py:82-92 | 400 without a user id. 500 with the exception's message when the database client or the query raises. Otherwise the id and name of each of the user's faces, in table order. |
| Api.Without | backend/api.py:103 | A delete never leaves more rows than the table had. |
| Api.WithoutMeaning | backend/api.py:103 | Removes exactly the rows that match both the id and the user. |
| Api.WithoutSplits | backend/api.py:103 | The rows that survive keep the table's order and repetitions. |
| Api.DeleteFace | backend/api.py:96-106 | 400 without a user id. 500 with the exception's message when the database client or the delete raises. Otherwise the table without that user's row with the id. |
| Api.DeleteOnlyOwnFace | backend/api.py:97-103 | A delete never removes another user's row or a row with another id. |
| Api.DeleteIdempotent | backend/api.py:103 | Deleting twice is deleting once. |
| Api.CaptureUser | backend/api.py:177-180 | The user id comes from the header, then the JSON body; the form is not read. |
| Api.DefaultCaptureUrl | backend/api.py:114-118 | `VIDEO_STREAM_URL` when it is set, even to the empty string, and otherwise the built-in address. |
| Api.CaptureStreamUrl | backend/api.py:182-188 | The requested stream when truthy, otherwise the server's default address. |
| Api.WarmUpIgnored | backend/api.py:196-200 | The five warm-up frames never affect the result. |
| Api.ReadAfterWarmUp | backend/api.py:196-200 | The loop consumes five frames from the stream; the frame used is the sixth read, and there is none when the stream gives five frames or fewer. |
| Api.FrameOutcome | backend/api.py:202-228 | A failed read gives 500. Otherwise the frame goes through the shared scan-and-store tail, with the stream handler's no-face message. |
| Api.CaptureFace | backend/api.py:163-232 | 400 without a user id or name. With both, 500 naming the address when no source of the server's plan opens. Once a source opens: 500 when the sixth read fails, 500 when the scan raises, 400 with the stream message when no face is found, 400 when none encodes, 500 when the insert fails, and otherwise OK with the name and a row of the caller's id, the name and the encoding. |
| Api.CaptureFaceFromStream | backend/api.py:175-232 | The handler with its warm-up loop returns `CaptureFace`. |

## Left out

- Face detection, face encoding, `numpy.linalg.norm`, MediaPipe, YOLO, background subtraction and contour finding are inputs, as described above.
- The DNS check and the Tailscale probing with hostname substitution in the detector's `open_video_stream` (backend/opencv.py:894-992) are not modelled. Apart from them, that function is the server's plan.
- `detection_scale` resizing and the scaling of the boxes back to the frame are not modelled (backend/opencv.py:463-498). Boxes are in frame coordinates.
- Tracker.StepperCommand: `round(x, 2)` on the angle and distance is not modelled. The command carries the unrounded values.
- Util.ParseInt: Python's `int()` also accepts surrounding whitespace, underscores between digits and non-ASCII digits. The model accepts an optional sign and ASCII digits only.
- Util.Upper: upper-casing covers ASCII letters only.
- Supabase reads and writes, storage uploads, `send_camera_alert`'s HTTP request, Twilio and the Gemini assessment are I/O. Their results are inputs: the rows returned, whether an upload succeeded, the assessment text and the contacts' phone numbers. backend/gemini.py is not part of this model.
- Background threads (`_process_alert_async`, `_upload_video_async`) and the alert snapshot, video file and alert log writes are left out.
- Drawing, `imshow`, the video frames written while recording, and the FPS display are left out.
- `build_from_folder`, `save_database`, `save_coordinates_log` and `draw_detections` are left out: file I/O and drawing with no decision logic.
- The pickle file is modelled as rows, so its names and encodings have the same length. The source trusts the file for that.
- The source keeps a separate `encoding_matrix` and identifies against it. A load rebuilds it only when some encodings were loaded (backend/opencv.py:66-67, 78-79). Loading an empty pickle therefore leaves a stale matrix beside empty lists. The model identifies against the held lists. The outcome is the same. With a stale matrix, either no distance is below the tolerance, or `known_names[idx]` raises and the detector swallows the exception. Either way the box gets no name and confidence 0, as the model gives for an empty database.
- Pipeline.FastSecuritySystem.constructor: requires `process_every_n` to be non-zero. The source accepts 0 and then raises ZeroDivisionError on the first frame (backend/opencv.py:455); that configuration is not modelled.
- Api.ListFaces: the reply holds each face's id and name. The `created_at` column the query also selects is not modelled.
- Pipeline.MatchFor: a distance vector whose length differs from the database stands for the exception the detector swallows.
- Pipeline.FastSecuritySystem.DetectAndRecognize: the statistics of a processed frame are added after the loop rather than box by box; the values reached are the same.
- Pipeline.FastSecuritySystem.DetectAndRecognize: the confidence of an unidentified box is the real 0.0, where the source uses the integer 0.
- The motion-alert cooldown and the motion branch of `main` are left out; `MotionDetector.detect` itself is modelled.
- The remaining steps of `main`, the interactive prompts and the `__main__` blocks are left out, except the periodic reload and the end of a recording. Left out there: the configuration, the camera resolution probing, the key handling and when `trigger_alert` is called.
- Pipeline.TruncFifth: the widened box edge `int(x - w*0.2)` is computed as an exact fifth, without floating-point rounding.
- Capture.ReviewPhotos: the source waits for a key forever; the model ends when the key events run out.
- Capture.CaptureTrainingPhotos: a failed frame read is retried forever in the source. The model ends when the key events run out, and a failed read is a tick that does nothing.
- `capture_single_photo`, `test_stream_connection` and `list_familiar_faces` in backend/webcam_capture.py are left out: they are I/O around the pieces already modelled. Likewise `health` and `test_stream` in backend/api.py.
- Environment variables (`VIDEO_STREAM_URL`, `EXPO_PUBLIC_BACKEND_URL`, `SUPABASE_USER_ID`) are parameters. The built-in defaults are modelled.
- Capture.NumPhotosArg: the digit test is ASCII only. Python's `str.isdigit` also accepts other Unicode digits. For example, "٣" gives 3 in the source, and "²" passes the test and then makes `int()` raise, which ends the program. The model gives 5 for both.
- JSON values are modelled as strings. A non-string `user_id` or `name` is not modelled.

## Findings

| source | as written | input that shows it | evidently intended | confidence | as-written member | corrected member |
|---|---|---|---|---|---|---|
| backend/opencv.py:56-69 | The remote branch of `load_database` appends the returned rows to the lists already held. `main` calls it again every 300 seconds (backend/opencv.py:1118-1120). | "A" is loaded at start-up and then deleted from the table; the reload returns only "B". The lists hold ["A", "B"], so a face at distance 0.1 from A's encoding is still identified as "A". Each reload also duplicates every row, which doubles its votes. | A reload replaces the lists, as `build_from_folder` and the local branch do. The database then mirrors the table, and a deleted name is never identified. | high, not executed | FaceDb.FastFaceDatabase.LoadDatabase | FaceDb.FastFaceDatabase.ReloadDatabase |
