/**
 * The records exchanged between the vision service, the ranking step and the
 * message formatter: a detected object with its three enumerated qualifiers,
 * and the response that carries the ordered objects and a scene summary.
 */
module Types {
  import opened Wrappers

  /** How far away the object is, from within a couple of feet (immediate) to beyond about thirty feet (far). */
  datatype Distance = Immediate | Near | Medium | Far

  /** Where the object sits in the field of view. */
  datatype Position = Left | Center | Right | Full

  /** How urgent the object is for the wearer. */
  datatype Urgency = Low | Medium | High

  datatype DetectedObject = DetectedObject(name: string, distance: Distance, position: Position, urgency: Urgency)

  datatype DetectionResponse = DetectionResponse(objects: seq<DetectedObject>, summary: string)

  /** The string literal that stands for each distance on the wire and in speech. */
  function DistanceName(d: Distance): string
  {
    match d
    case Immediate => "immediate"
    case Near => "near"
    case Medium => "medium"
    case Far => "far"
  }

  function PositionName(p: Position): string
  {
    match p
    case Left => "left"
    case Center => "center"
    case Right => "right"
    case Full => "full"
  }

  function UrgencyName(u: Urgency): string
  {
    match u
    case Low => "low"
    case Medium => "medium"
    case High => "high"
  }

  /** Reads a distance literal; any string outside the four literals is rejected. */
  function ParseDistance(s: string): (r: Option<Distance>)
    ensures r.Some? ==> DistanceName(r.value) == s
    ensures r.None? ==> forall d: Distance :: DistanceName(d) != s
  {
    if s == "immediate" then Some(Immediate)
    else if s == "near" then Some(Near)
    else if s == "medium" then Some(Distance.Medium)
    else if s == "far" then Some(Far)
    else None
  }

  function ParsePosition(s: string): (r: Option<Position>)
    ensures r.Some? ==> PositionName(r.value) == s
    ensures r.None? ==> forall p: Position :: PositionName(p) != s
  {
    if s == "left" then Some(Left)
    else if s == "center" then Some(Center)
    else if s == "right" then Some(Right)
    else if s == "full" then Some(Full)
    else None
  }

  function ParseUrgency(s: string): (r: Option<Urgency>)
    ensures r.Some? ==> UrgencyName(r.value) == s
    ensures r.None? ==> forall u: Urgency :: UrgencyName(u) != s
  {
    if s == "low" then Some(Low)
    else if s == "medium" then Some(Urgency.Medium)
    else if s == "high" then Some(High)
    else None
  }

  /** Each value has its own literal: reading back the literal gives the same value. */
  lemma NamesRoundTrip(d: Distance, p: Position, u: Urgency)
    ensures ParseDistance(DistanceName(d)) == Some(d)
    ensures ParsePosition(PositionName(p)) == Some(p)
    ensures ParseUrgency(UrgencyName(u)) == Some(u)
  {
  }
}
