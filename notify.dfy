/**
 * The text side of an alert: the threat level read out of the AI
 * assessment, the notification message with its fallbacks, the thumbnail
 * link, and the SMS bodies sent to the user's emergency contacts.
 */
module Notify {
  import opened Util

  const HighMarker: string := "THREAT: HIGH"
  const MediumMarker: string := "THREAT: MEDIUM"
  const LowMarker: string := "THREAT: LOW"

  const KnownPrefix: string := "Known person detected: "
  const UnknownMessage: string := "ALERT: Unknown person detected near your vehicle"

  /** Used when the backend URL is not configured. */
  const DefaultBackendUrl: string := "http://localhost:5000"
  const MediaPath: string := "/api/alerts/media/"

  /** At most this many characters of the message go into an SMS. */
  const SmsLimit: nat := 120
  const ViewSeparator: string := "\n\nView: "

  /**
   * The threat level stored with an alert: the strongest marker found in the
   * upper-cased assessment, and None for a missing or empty assessment or one
   * without a marker.
   */
  function ThreatLevel(assessment: Option<string>): (r: Option<string>)
    ensures !Truthy(assessment) ==> r == None
    ensures Truthy(assessment) ==>
              var text := Upper(assessment.value);
              && (r == Some("HIGH") <==> Contains(text, HighMarker))
              && (r == Some("MEDIUM") <==> !Contains(text, HighMarker) && Contains(text, MediumMarker))
              && (r == Some("LOW") <==> !Contains(text, HighMarker) && !Contains(text, MediumMarker) && Contains(text, LowMarker))
              && (r == None <==> !Contains(text, HighMarker) && !Contains(text, MediumMarker) && !Contains(text, LowMarker))
  {
    if !Truthy(assessment) then None
    else
      var text := Upper(assessment.value);
      if Contains(text, HighMarker) then Some("HIGH")
      else if Contains(text, MediumMarker) then Some("MEDIUM")
      else if Contains(text, LowMarker) then Some("LOW")
      else None
  }

  /** Upper-casing twice is upper-casing once. */
  lemma UpperIdempotent(s: string)
    ensures Upper(Upper(s)) == Upper(s)
  {
    assert forall i :: 0 <= i < |s| ==> Upper(Upper(s))[i] == Upper(s)[i];
  }

  /** Upper-casing works character by character, so it distributes over concatenation. */
  lemma UpperConcat(a: string, b: string)
    ensures Upper(a + b) == Upper(a) + Upper(b)
  {
    assert forall i :: 0 <= i < |a + b| ==> Upper(a + b)[i] == (Upper(a) + Upper(b))[i];
  }

  /** The level does not depend on the case of the assessment. */
  lemma ThreatLevelIgnoresCase(s: string)
    ensures ThreatLevel(Some(Upper(s))) == ThreatLevel(Some(s))
  {
    UpperIdempotent(s);
  }

  /** A string containing `sub` still contains it with text added on either side. */
  lemma {:induction false} ContainsWithin(pre: string, s: string, post: string, sub: string)
    requires Contains(s, sub)
    ensures Contains(pre + s + post, sub)
    decreases |pre|
  {
    if pre == [] {
      assert pre + s + post == s + post;
      ContainsAppend(s, post, sub);
    } else {
      ContainsWithin(pre[1..], s, post, sub);
      assert (pre + s + post)[1..] == pre[1..] + s + post;
    }
  }

  lemma {:induction false} ContainsAppend(s: string, post: string, sub: string)
    requires Contains(s, sub)
    ensures Contains(s + post, sub)
    decreases |s|
  {
    if StartsWith(s, sub) {
      assert (s + post)[..|sub|] == s[..|sub|];
    } else {
      ContainsAppend(s[1..], post, sub);
      assert (s + post)[1..] == s[1..] + post;
    }
  }

  /** "threat: high" anywhere in the assessment, in any case, makes the alert high. */
  lemma HighMarkerAnywhere(pre: string, marker: string, post: string)
    requires Upper(marker) == HighMarker
    ensures ThreatLevel(Some(pre + marker + post)) == Some("HIGH")
  {
    UpperConcat(pre + marker, post);
    UpperConcat(pre, marker);
    assert StartsWith(HighMarker, HighMarker);
    ContainsWithin(Upper(pre), HighMarker, Upper(post), HighMarker);
  }

  /**
   * The notification text: the assessment when there is one, otherwise a
   * fixed sentence naming a known person or warning of an unknown one.
   */
  function NotificationMessage(assessment: Option<string>, isKnown: bool, identity: string): (m: string)
    ensures |m| > 0
    ensures Truthy(assessment) ==> m == assessment.value
    ensures !Truthy(assessment) && isKnown ==> StartsWith(m, KnownPrefix) && m[|KnownPrefix|..] == identity
    ensures !Truthy(assessment) && !isKnown ==> m == UnknownMessage
  {
    if Truthy(assessment) then assessment.value
    else if isKnown then KnownPrefix + identity
    else UnknownMessage
  }

  /** The backend address: the configured one when set, otherwise the local default. */
  function BackendUrl(configured: Option<string>): (u: string)
    ensures configured.Some? ==> u == configured.value
    ensures configured.None? ==> u == DefaultBackendUrl
  {
    match configured
    case Some(url) => url
    case None => DefaultBackendUrl
  }

  /** The link to an alert's thumbnail, present exactly when there is a thumbnail file name. */
  function ThumbnailUrl(backendUrl: string, filename: Option<string>): (r: Option<string>)
    ensures r.Some? <==> Truthy(filename)
    ensures r.Some? ==> StartsWith(r.value, backendUrl + MediaPath)
                        && r.value[|backendUrl + MediaPath|..] == filename.value
  {
    if Truthy(filename) then Some(backendUrl + MediaPath + filename.value) else None
  }

  /**
   * One SMS body: the message cut to 120 characters, then the thumbnail link
   * on its own paragraph when there is one.
   */
  function SmsBody(message: string, thumbnailUrl: Option<string>): (b: string)
    ensures var k := if |message| < SmsLimit then |message| else SmsLimit;
            && StartsWith(b, message[..k])
            && (Truthy(thumbnailUrl) ==> b[k..] == ViewSeparator + thumbnailUrl.value)
            && (!Truthy(thumbnailUrl) ==> b == message[..k])
  {
    var text := if |message| > SmsLimit then message[..SmsLimit] else message;
    if Truthy(thumbnailUrl) then text + ViewSeparator + thumbnailUrl.value else text
  }

  /**
   * The text part of an SMS is never longer than 120 characters, and a
   * message of at most 120 characters is sent whole.
   */
  lemma SmsKeepsShortMessages(message: string, thumbnailUrl: Option<string>)
    ensures |SmsBody(message, thumbnailUrl)| <= SmsLimit + (if Truthy(thumbnailUrl) then |ViewSeparator| + |thumbnailUrl.value| else 0)
    ensures |message| <= SmsLimit ==> StartsWith(SmsBody(message, thumbnailUrl), message)
  {
  }

  /**
   * The messages `_trigger_notification_service` sends, as (phone, body)
   * pairs: none without a user id, without contacts or without SMS
   * credentials; otherwise one per contact that has a phone number, in the
   * contacts' order, every one with the same body.
   */
  function SmsDeliveries(userId: Option<string>, phones: seq<Option<string>>, credentials: bool,
                         message: string, thumbnailUrl: Option<string>): (d: seq<(string, string)>)
    ensures !Truthy(userId) || !credentials ==> d == []
    ensures forall i :: 0 <= i < |d| ==> d[i].1 == SmsBody(message, thumbnailUrl) && d[i].0 != ""
    ensures |d| <= |phones|
    decreases |phones|
  {
    if !Truthy(userId) || !credentials || phones == [] then []
    else
      var prior := SmsDeliveries(userId, phones[..|phones| - 1], credentials, message, thumbnailUrl);
      var last := phones[|phones| - 1];
      if Truthy(last) then prior + [(last.value, SmsBody(message, thumbnailUrl))] else prior
  }

  /** Every contact with a phone number gets the message, and nobody else does. */
  lemma {:induction false} DeliveriesReachContacts(userId: Option<string>, phones: seq<Option<string>>,
                                                   message: string, thumbnailUrl: Option<string>, phone: string)
    requires Truthy(userId)
    ensures (phone, SmsBody(message, thumbnailUrl)) in SmsDeliveries(userId, phones, true, message, thumbnailUrl)
            <==> phone != "" && Some(phone) in phones
    decreases |phones|
  {
    if phones != [] {
      var init := phones[..|phones| - 1];
      DeliveriesReachContacts(userId, init, message, thumbnailUrl, phone);
      assert phones == init + [phones[|phones| - 1]];
    }
  }
}
