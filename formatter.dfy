/**
 * The message formatter: turns a detection response into the sentence that is
 * spoken. The default qualifiers (medium distance, center position) are left
 * unsaid, one fragment is produced per object in list order, the fragments are
 * joined with ". ", a bare summary is read as-is, and a fixed sentence covers
 * the case where nothing would be said.
 */
module Formatter {
  import opened Wrappers
  import opened Types
  import opened Strings

  const Separator := ". "
  const NothingDetected := "No objects detected."

  /** " <distance>", or nothing for the default distance `medium`. */
  function DistanceQualifier(d: Distance): string
  {
    if d == Distance.Medium then "" else " " + DistanceName(d)
  }

  /** " to your <position>", or nothing for the default position `center`. */
  function PositionQualifier(p: Position): string
  {
    if p == Center then "" else " to your " + PositionName(p)
  }

  /** The qualifiers that are not defaults: distance first, then position. */
  function Qualifiers(o: DetectedObject): string
  {
    DistanceQualifier(o.distance) + PositionQualifier(o.position)
  }

  /** What is said about one object: its name, then its qualifiers. */
  function Fragment(o: DetectedObject): string
  {
    o.name + Qualifiers(o)
  }

  /** One fragment per object, in the order of the objects. */
  function Fragments(objects: seq<DetectedObject>): (r: seq<string>)
    ensures |r| == |objects|
    ensures forall i :: 0 <= i < |objects| ==> r[i] == Fragment(objects[i])
  {
    if objects == [] then [] else [Fragment(objects[0])] + Fragments(objects[1..])
  }

  /** The fragments of all objects joined into one text. */
  function Descriptions(response: DetectionResponse): string
  {
    Join(Fragments(response.objects), Separator)
  }

  /** The sentence spoken for a response; it is never empty. */
  function FormatMessage(response: DetectionResponse): (r: string)
    ensures r != ""
    ensures response.objects == [] && response.summary != "" ==> r == response.summary
    ensures response.objects == [] && response.summary == "" ==> r == NothingDetected
  {
    if |response.objects| == 0 && response.summary != "" then response.summary
    else if Descriptions(response) != "" then Descriptions(response)
    else NothingDetected
  }

  /** A fragment is empty only for a nameless object at the default distance and position. */
  lemma FragmentEmpty(o: DetectedObject)
    ensures Fragment(o) == "" <==> o.name == "" && o.distance == Distance.Medium && o.position == Center
  {
    if o.distance != Distance.Medium {
      assert |DistanceQualifier(o.distance)| > 0;
    }
    if o.position != Center {
      assert |PositionQualifier(o.position)| > 0;
    }
  }

  /**
   * The joined descriptions are empty exactly when there are no objects, or one
   * nameless object at medium distance in the center; these are the cases that
   * fall back to "No objects detected." (unless a summary is read instead).
   */
  lemma DescriptionsEmpty(response: DetectionResponse)
    ensures Descriptions(response) == "" <==>
      || response.objects == []
      || (|response.objects| == 1 && Fragment(response.objects[0]) == "")
  {
    JoinEmpty(Fragments(response.objects), Separator);
  }

  /** When there are objects and something to say about them, the message is the joined fragments. */
  lemma MessageFromObjects(response: DetectionResponse)
    requires response.objects != []
    requires |response.objects| > 1 || Fragment(response.objects[0]) != ""
    ensures FormatMessage(response) == Join(Fragments(response.objects), Separator)
  {
    DescriptionsEmpty(response);
  }

  /** n fragments are separated by exactly n - 1 occurrences of ". ". */
  lemma DescriptionsLength(response: DetectionResponse)
    requires response.objects != []
    ensures |Descriptions(response)| == TotalLength(Fragments(response.objects)) + 2 * (|response.objects| - 1)
  {
    JoinLength(Fragments(response.objects), Separator);
  }

  /** True when `s` ends with `suffix`. */
  predicate EndsWith(s: string, suffix: string)
  {
    |suffix| <= |s| && s[|s| - |suffix|..] == suffix
  }

  /** Reads the position back from the end of the qualifiers; no position qualifier means center. */
  function PositionOf(qualifiers: string): (string, Position)
  {
    if EndsWith(qualifiers, PositionQualifier(Left)) then (qualifiers[..|qualifiers| - |PositionQualifier(Left)|], Left)
    else if EndsWith(qualifiers, PositionQualifier(Right)) then (qualifiers[..|qualifiers| - |PositionQualifier(Right)|], Right)
    else if EndsWith(qualifiers, PositionQualifier(Full)) then (qualifiers[..|qualifiers| - |PositionQualifier(Full)|], Full)
    else (qualifiers, Center)
  }

  /** Reads the distance back from what precedes the position; nothing means medium. */
  function DistanceOf(qualifier: string): Option<Distance>
  {
    if qualifier == "" then Some(Distance.Medium)
    else if qualifier == DistanceQualifier(Immediate) then Some(Immediate)
    else if qualifier == DistanceQualifier(Near) then Some(Near)
    else if qualifier == DistanceQualifier(Far) then Some(Far)
    else None
  }

  /** Recovers distance and position from the text that follows an object's name. */
  function ReadQualifiers(qualifiers: string): Option<(Distance, Position)>
  {
    var (rest, p) := PositionOf(qualifiers);
    match DistanceOf(rest)
    case Some(d) => Some((d, p))
    case None => None
  }

  lemma QualifierLengths()
    ensures |DistanceQualifier(Immediate)| == 10 && |DistanceQualifier(Near)| == 5
    ensures |DistanceQualifier(Distance.Medium)| == 0 && |DistanceQualifier(Far)| == 4
    ensures |PositionQualifier(Left)| == 13 && |PositionQualifier(Right)| == 14
    ensures |PositionQualifier(Full)| == 13 && |PositionQualifier(Center)| == 0
  {
  }

  /** Every distance qualifier reads back as its distance. */
  lemma DistanceOfQualifier(d: Distance)
    ensures DistanceOf(DistanceQualifier(d)) == Some(d)
  {
    QualifierLengths();
  }

  lemma EndsWithAppend(prefix: string, suffix: string)
    ensures EndsWith(prefix + suffix, suffix)
  {
    assert (prefix + suffix)[|prefix|..] == suffix;
  }

  lemma PrefixBeforeSuffix(prefix: string, suffix: string)
    ensures (prefix + suffix)[..|prefix + suffix| - |suffix|] == prefix
  {
    assert (prefix + suffix)[..|prefix|] == prefix;
  }

  /** `s` does not end with `suffix` when they differ at position `k` of the suffix. */
  lemma DiffersAt(s: string, suffix: string, k: nat)
    requires k < |suffix| <= |s| && s[|s| - |suffix| + k] != suffix[k]
    ensures !EndsWith(s, suffix)
  {
    assert s[|s| - |suffix|..][k] != suffix[k];
  }

  lemma PositionOfLeft(dq: string)
    ensures PositionOf(dq + PositionQualifier(Left)) == (dq, Left)
  {
    EndsWithAppend(dq, PositionQualifier(Left));
    PrefixBeforeSuffix(dq, PositionQualifier(Left));
  }

  lemma PositionOfRight(dq: string)
    ensures PositionOf(dq + PositionQualifier(Right)) == (dq, Right)
  {
    QualifierLengths();
    var s := dq + PositionQualifier(Right);
    assert s[|s| - 13] == PositionQualifier(Right)[1];
    DiffersAt(s, PositionQualifier(Left), 0);
    EndsWithAppend(dq, PositionQualifier(Right));
    PrefixBeforeSuffix(dq, PositionQualifier(Right));
  }

  lemma PositionOfFull(dq: string)
    ensures PositionOf(dq + PositionQualifier(Full)) == (dq, Full)
  {
    QualifierLengths();
    var s := dq + PositionQualifier(Full);
    assert s[|s| - 13 + 9] == PositionQualifier(Full)[9];
    DiffersAt(s, PositionQualifier(Left), 9);
    if |s| >= 14 {
      assert s[|s| - 14 + 1] == PositionQualifier(Full)[0];
      DiffersAt(s, PositionQualifier(Right), 1);
    }
    EndsWithAppend(dq, PositionQualifier(Full));
    PrefixBeforeSuffix(dq, PositionQualifier(Full));
  }

  lemma PositionOfCenter(dq: string)
    requires |dq| <= 10
    ensures PositionOf(dq + PositionQualifier(Center)) == (dq, Center)
  {
    QualifierLengths();
    assert dq + PositionQualifier(Center) == dq;
  }

  /** The position qualifier is recognised at the end, after any distance qualifier. */
  lemma PositionOfQualified(dq: string, p: Position)
    requires |dq| <= 10
    ensures PositionOf(dq + PositionQualifier(p)) == (dq, p)
  {
    match p
    case Left => PositionOfLeft(dq);
    case Right => PositionOfRight(dq);
    case Full => PositionOfFull(dq);
    case Center => PositionOfCenter(dq);
  }

  /**
   * Leaving out the defaults loses nothing: the qualifiers that follow the
   * name determine the distance and the position.
   */
  lemma QualifiersRoundTrip(d: Distance, p: Position)
    ensures ReadQualifiers(DistanceQualifier(d) + PositionQualifier(p)) == Some((d, p))
  {
    QualifierLengths();
    PositionOfQualified(DistanceQualifier(d), p);
    DistanceOfQualifier(d);
  }

  /** A common prefix can be cancelled from both sides of an equation. */
  lemma PrefixCancel(prefix: string, x: string, y: string)
    requires prefix + x == prefix + y
    ensures x == y
  {
    assert x == (prefix + x)[|prefix|..];
    assert y == (prefix + y)[|prefix|..];
  }

  /** Two objects with the same name and the same fragment have the same distance and position. */
  lemma FragmentDeterminesQualifiers(a: DetectedObject, b: DetectedObject)
    requires a.name == b.name && Fragment(a) == Fragment(b)
    ensures a.distance == b.distance && a.position == b.position
  {
    PrefixCancel(a.name, Qualifiers(a), Qualifiers(b));
    QualifiersRoundTrip(a.distance, a.position);
    QualifiersRoundTrip(b.distance, b.position);
  }

  /** "car" at medium distance in the center is announced as just "car". */
  lemma DefaultsOmitted()
    ensures FormatMessage(DetectionResponse([DetectedObject("car", Distance.Medium, Center, High)], "")) == "car"
  {
  }

  /** A single object with something to say about it is announced by its fragment alone. */
  lemma SingleObjectMessage(o: DetectedObject, summary: string)
    requires Fragment(o) != ""
    ensures FormatMessage(DetectionResponse([o], summary)) == Fragment(o)
  {
    assert Fragments([o]) == [Fragment(o)];
  }

  /** "curb" close by on the left is announced as "curb", " immediate", " to your left". */
  lemma QualifiersSpoken()
    ensures FormatMessage(DetectionResponse([DetectedObject("curb", Immediate, Left, High)], "")) == "curb" + " immediate" + " to your left"
  {
    SingleObjectMessage(DetectedObject("curb", Immediate, Left, High), "");
  }

  /** A single nameless object at medium distance in the center leaves nothing to say, so the fallback is announced. */
  lemma NamelessDefaultFallsBack(o: DetectedObject, summary: string)
    requires o.name == "" && o.distance == Distance.Medium && o.position == Center
    ensures FormatMessage(DetectionResponse([o], summary)) == NothingDetected
  {
    FragmentEmpty(o);
    DescriptionsEmpty(DetectionResponse([o], summary));
  }
}
