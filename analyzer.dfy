/**
 * The analysis call as the detection loop sees it: the still frame's payload
 * handed to the vision service, the service's reply (supplied from outside,
 * since the service is remote), the in-place ranking of the returned objects,
 * and the single generic error that replaces every failure.
 */
module Analyzer {
  import opened Wrappers
  import opened Types
  import opened Strings
  import opened Ranking

  /** What the remote call and the JSON parse produced: a parsed response, or any failure of either. */
  datatype ServiceReply = Parsed(objects: seq<DetectedObject>, summary: string) | Failed

  /** The message of the one error the analyzer raises, whatever went wrong. */
  const AnalysisFailure := "Failed to analyze image with Gemini API."

  /**
   * The image data sent for a data URL such as "data:image/jpeg;base64,<data>":
   * the second comma-separated piece, or nothing (JavaScript's undefined) when
   * the URL has no comma.
   */
  function Payload(dataUrl: string): Option<string>
  {
    var parts := Split(dataUrl, ',');
    if |parts| >= 2 then Some(parts[1]) else None
  }

  /** There is a payload exactly when the URL contains a comma. */
  lemma PayloadNone(dataUrl: string)
    ensures Payload(dataUrl).None? <==> ',' !in dataUrl
  {
    var parts := Split(dataUrl, ',');
    if |parts| == 1 {
      SplitJoin(dataUrl, ',');
    }
    if ',' !in dataUrl {
      SplitFreePrefix(dataUrl, [], ',');
      assert dataUrl + [] == dataUrl;
    }
  }

  /** A payload is the text after the first comma, up to the next comma or the end. */
  lemma PayloadParts(dataUrl: string) returns (head: string, tail: string)
    requires Payload(dataUrl).Some?
    ensures dataUrl == head + [','] + Payload(dataUrl).value + tail
    ensures ',' !in head && ',' !in Payload(dataUrl).value
    ensures tail == [] || tail[0] == ','
  {
    var parts := Split(dataUrl, ',');
    SplitJoin(dataUrl, ',');
    head := parts[0];
    tail := if |parts| > 2 then [','] + Join(parts[2..], [',']) else [];
    assert parts[1..][1..] == parts[2..];
    assert Join(parts[1..], [',']) == parts[1] + tail;
  }

  /** Conversely, the text between the first comma and the next one is the payload. */
  lemma PayloadOfParts(head: string, p: string, tail: string)
    requires ',' !in head && ',' !in p
    requires tail == [] || tail[0] == ','
    ensures Payload(head + [','] + p + tail) == Some(p)
  {
    var rest := [','] + p + tail;
    assert head + [','] + p + tail == head + rest;
    SplitFreePrefix(head, rest, ',');
    assert rest[1..] == p + tail;
    SplitFreePrefix(p, tail, ',');
    assert Split(tail, ',')[0] == [];
    assert p + [] == p;
  }

  /**
   * One analysis: the payload sent, then either the parsed response with its
   * objects ranked in place, or the generic failure. A failed call never
   * yields part of a response.
   */
  method AnalyzeImage(dataUrl: string, reply: ServiceReply) returns (sent: Option<string>, r: Result<DetectionResponse, string>)
    ensures sent == Payload(dataUrl)
    ensures r.Failure? <==> reply.Failed?
    ensures r.Failure? ==> r.error == AnalysisFailure
    ensures r.Success? ==> r.value == DetectionResponse(Ranked(reply.objects), reply.summary)
  {
    sent := Payload(dataUrl);
    match reply
    case Failed =>
      r := Failure(AnalysisFailure);
    case Parsed(objects, summary) =>
      var a := new DetectedObject[|objects|](i requires 0 <= i < |objects| => objects[i]);
      assert a[..] == objects;
      SortObjects(a);
      r := Success(DetectionResponse(a[..], summary));
  }
}
