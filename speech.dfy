/**
 * Speech dispatch: the choice of a voice from the voices the synthesizer
 * offers, and the synthesizer's queue as seen by `speak` and `cancel`.
 * A new utterance always pre-empts the one being spoken; `cancel` touches the
 * synthesizer only when something is being spoken.
 */
module Speech {
  import opened Wrappers
  import opened Strings

  datatype Voice = Voice(name: string, lang: string)

  const PreferredVoice := "Google US English"
  const PreferredFamily := "Google"
  const TargetLang := "en-US"

  /** The three stages of the voice fallback chain, tried in this order. */
  datatype Criterion = ExactName | FamilyInLang | InLang

  predicate Matches(c: Criterion, v: Voice)
  {
    match c
    case ExactName => v.name == PreferredVoice
    case FamilyInLang => v.lang == TargetLang && Contains(v.name, PreferredFamily)
    case InLang => v.lang == TargetLang
  }

  /** `i` is the position of the first voice meeting `c`. */
  predicate FirstWith(voices: seq<Voice>, c: Criterion, i: nat)
  {
    i < |voices| && Matches(c, voices[i]) && forall j :: 0 <= j < i ==> !Matches(c, voices[j])
  }

  /** No voice meets `c`. */
  predicate NoneWith(voices: seq<Voice>, c: Criterion)
  {
    forall j :: 0 <= j < |voices| ==> !Matches(c, voices[j])
  }

  /** The position of the first voice meeting `c`, as `find` scans the list front to back. */
  function FindIndex(voices: seq<Voice>, c: Criterion): (r: Option<nat>)
    ensures r.Some? ==> FirstWith(voices, c, r.value)
    ensures r.None? ==> NoneWith(voices, c)
  {
    if voices == [] then None
    else if Matches(c, voices[0]) then Some(0)
    else match FindIndex(voices[1..], c)
      case Some(i) => Some(i + 1)
      case None => None
  }

  /** The first voice meeting `c`, if any. */
  function Find(voices: seq<Voice>, c: Criterion): Option<Voice>
  {
    match FindIndex(voices, c)
    case Some(i) => Some(voices[i])
    case None => None
  }

  /** Only one position can be the first match. */
  lemma FirstWithUnique(voices: seq<Voice>, c: Criterion, i: nat, k: nat)
    requires FirstWith(voices, c, i) && FirstWith(voices, c, k)
    ensures i == k
  {
  }

  /** `Find` returns exactly the first voice meeting `c`. */
  lemma FindFirst(voices: seq<Voice>, c: Criterion, i: nat)
    requires FirstWith(voices, c, i)
    ensures Find(voices, c) == Some(voices[i])
  {
    var r := FindIndex(voices, c);
    assert r.Some?;
    FirstWithUnique(voices, c, r.value, i);
  }

  /** The voice given to an utterance: the exact preferred voice, else a Google en-US voice, else any en-US voice. */
  function SelectVoice(voices: seq<Voice>): (r: Option<Voice>)
    ensures r.Some? ==> r.value in voices
    ensures r.Some? ==> r.value.name == PreferredVoice || r.value.lang == TargetLang
    ensures r.None? <==> NoneWith(voices, ExactName) && NoneWith(voices, InLang)
  {
    var preferred := Find(voices, ExactName);
    if preferred.Some? then preferred
    else
      var family := Find(voices, FamilyInLang);
      if family.Some? then family
      else Find(voices, InLang)
  }

  /** Stage one: a voice with the exact preferred name wins, the first such one. */
  lemma SelectsPreferredFirst(voices: seq<Voice>, i: nat)
    requires FirstWith(voices, ExactName, i)
    ensures SelectVoice(voices) == Some(voices[i])
  {
    FindFirst(voices, ExactName, i);
  }

  /** Stage two: without it, the first en-US voice whose name contains "Google". */
  lemma SelectsFamilyNext(voices: seq<Voice>, i: nat)
    requires NoneWith(voices, ExactName)
    requires FirstWith(voices, FamilyInLang, i)
    ensures SelectVoice(voices) == Some(voices[i])
  {
    FindFirst(voices, FamilyInLang, i);
  }

  /** Stage three: without either, the first en-US voice. */
  lemma SelectsLocalLast(voices: seq<Voice>, i: nat)
    requires NoneWith(voices, ExactName) && NoneWith(voices, FamilyInLang)
    requires FirstWith(voices, InLang, i)
    ensures SelectVoice(voices) == Some(voices[i])
  {
    FindFirst(voices, InLang, i);
  }

  /** A request handed to the synthesizer; the language is always en-US. */
  datatype Utterance = Utterance(text: string, lang: string, voice: Option<Voice>)

  /** A call made on the synthesizer. */
  datatype SynthCall = SynthSpeak(utterance: Utterance) | SynthCancel

  /** The utterance built for `text` with the voices on offer. */
  function UtteranceFor(voices: seq<Voice>, text: string): (u: Utterance)
    ensures u.text == text && u.lang == TargetLang
    ensures u.voice.Some? ==> u.voice.value in voices
    ensures u.voice == SelectVoice(voices)
  {
    Utterance(text, TargetLang, SelectVoice(voices))
  }

  /** The calls `speak` makes: a cancel when something is being spoken, then the new utterance. */
  function SpeakCalls(speaking: bool, u: Utterance): (r: seq<SynthCall>)
    ensures |r| == (if speaking then 2 else 1)
    ensures speaking ==> r[0] == SynthCancel
    ensures r[|r| - 1] == SynthSpeak(u)
    ensures SynthCancel in r <==> speaking
  {
    (if speaking then [SynthCancel] else []) + [SynthSpeak(u)]
  }

  /** The calls `cancel` makes: one cancel, and only when something is being spoken. */
  function CancelCalls(speaking: bool): (r: seq<SynthCall>)
    ensures |r| <= 1
    ensures r == [] <==> !speaking
    ensures forall c :: c in r ==> c == SynthCancel
  {
    if speaking then [SynthCancel] else []
  }

  /**
   * The browser's speech synthesizer as the hook sees it: the voices it offers,
   * the queue of utterances it has yet to finish (it is speaking while the queue
   * is non-empty), and the calls made on it.
   */
  class SpeechEngine {
    const voices: seq<Voice>
    var queue: seq<Utterance>
    var calls: seq<SynthCall>

    constructor (voices: seq<Voice>)
      ensures this.voices == voices && queue == [] && calls == []
    {
      this.voices := voices;
      queue := [];
      calls := [];
    }

    predicate Speaking()
      reads this
    {
      queue != []
    }

    /** Cancels what is being spoken, then queues the new text: afterwards it is the only utterance. */
    method Speak(text: string)
      modifies this
      ensures queue == [UtteranceFor(voices, text)]
      ensures calls == old(calls) + SpeakCalls(old(Speaking()), UtteranceFor(voices, text))
    {
      if Speaking() {
        calls := calls + [SynthCancel];
        queue := [];
      }
      var u := UtteranceFor(voices, text);
      calls := calls + [SynthSpeak(u)];
      queue := queue + [u];
    }

    /** Stops speech; when nothing is being spoken, nothing changes, so a second cancel is a no-op. */
    method Cancel()
      modifies this
      ensures queue == []
      ensures calls == old(calls) + CancelCalls(old(Speaking()))
    {
      if Speaking() {
        calls := calls + [SynthCancel];
        queue := [];
      }
    }

    /** The synthesizer finishes the utterance it is speaking. */
    method Finish()
      requires Speaking()
      modifies this
      ensures queue == old(queue[1..]) && calls == old(calls)
    {
      queue := queue[1..];
    }
  }
}
