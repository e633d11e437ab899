# Aura Vision core, modelled in Dafny

Aura Vision is a browser app for blind and low-vision users. On a timer it
captures a camera frame and sends it to a remote vision model. It then speaks
a short sentence about the obstacles the model reports. This project models the
deterministic core that decides what the user hears and when:

- `types.dfy` (module `Types`) holds the records exchanged with the vision
  service. These are a detected object with its distance, position and urgency,
  and a response made of ordered objects and a summary. It also holds the string
  literals of the three enumerations.
- `ranking.dfy` (module `Ranking`) holds the comparator that orders objects by
  urgency rank, then distance rank. It also holds the in-place stable sort of the
  response's object array. The sort is an insertion sort on an `array`, proved
  against the functional specification `Ranked`. `Ranked` is proved sorted, a
  permutation and stable. It is also proved the only sequence with those three
  properties, so any stable sort with this comparator gives the same order.
- `analyzer.dfy` (module `Analyzer`) holds the analysis call as the app sees it.
  It sends the payload split out of the data URL, sorts the returned objects,
  and replaces every failure with one generic error. The remote reply is a
  parameter.
- `formatter.dfy` (module `Formatter`) holds the message formatter. The default
  qualifiers (medium, center) are left unsaid. There is one fragment per object
  in order, fragments are joined with ". ", a lone summary is read verbatim, and
  a fixed fallback sentence covers the rest.
- `speech.dfy` (module `Speech`) holds the voice fallback chain and a class for
  the synthesizer. `speak` pre-empts what is being spoken. `cancel` acts only
  while something is being spoken.
- `app.dfy` (module `App`) holds the detection state machine as a class. Its
  state is the detection flag, the camera flag, the status, the last spoken
  message, the interval and the armed timer. Its methods are the camera button,
  the play/pause button, the interval setting, the detection effect and the
  timer tick.
- `strings.dfy` and `wrappers.dfy` hold JavaScript's `join`, `split(',')` and
  `includes` on strings, and `Option`/`Result`.

Each app method is one user action or one timer tick, run to completion. The
state updates of one action are applied together. After them, the detection
effect runs once if one of its dependencies changed. The dependencies are the
detection flag, the interval, and the frame handler. The frame handler is
rebuilt whenever the camera flag or the last message changes. The captured
frame and the service's reply are parameters of a tick. The synthesizer is
recorded as its queue of utterances and the list of calls made on it.

Some behaviours of the code are easy to miss; the model follows the code:

- Turning the camera on cannot fail. The camera hook catches and reports its
  own errors (hooks/useCamera.ts:25-36), so the error branch of the camera
  button (App.tsx:35-37) is never reached. Pressed with the camera off, the
  play button therefore always starts detection.
- The status `Starting` is declared (App.tsx:10) but never set. `DetectionApp.Valid`
  states that it never occurs.
- A tick is skipped for a missing frame and also for an empty-string frame,
  because the guard tests the frame for truthiness (App.tsx:45).
- An analysed response with no objects and an empty summary says nothing at
  all (`App.EmptyResultSilent`), even though the formatter would give its
  fallback sentence. The fallback is still spoken for a single nameless object
  at medium distance in the center (`App.NamelessDefaultSpoken`).
- A tick that finishes after detection was switched off still speaks its new
  message. The message changes the frame handler, so the effect runs again. It
  turns the status from running to idle and cancels that message at once.
- Changing the interval while detection is off re-runs the effect, which
  cancels any speech.

## Model

| member | source | states |
|---|---|---|
| Types.ParseDistance | types.ts:4 | a distance literal is read back to the one value that prints as it; any other string is rejected |
| Types.ParsePosition | types.ts:5 | a position literal is read back to the one value that prints as it; any other string is rejected |
| Types.ParseUrgency | types.ts:6 | an urgency literal is read back to the one value that prints as it; any other string is rejected |
| Types.NamesRoundTrip | types.ts:2-7 | the literals of each enumeration are distinct: printing then reading gives back every value |
| Ranking.RankOrders | services/geminiService.ts:79-80 | urgency ranks high < medium < low; distance ranks immediate < near < medium < far |
| Ranking.Compare | services/geminiService.ts:82-85 | the comparator is zero exactly when urgency and distance both agree, and its sign is that of the lexicographic (urgency rank, distance rank) comparison |
| Ranking.UrgencyFirst | services/geminiService.ts:82-85 | a lower urgency rank sorts first whatever the distances; distance is the difference consulted only on equal urgency |
| Ranking.CompareAntisymmetric | services/geminiService.ts:82-85 | swapping the two objects negates the comparison |
| Ranking.RankedPermutes | services/geminiService.ts:78 | the sorted objects are the input's objects: the same multiset |
| Ranking.RankedSorted | services/geminiService.ts:78-86 | after the sort no object precedes one that the comparator puts before it |
| Ranking.RankedStable | services/geminiService.ts:78-86 | objects of equal urgency and distance keep their original relative order |
| Ranking.RankedCharacterized | services/geminiService.ts:78-86 | any sorted, order-keeping rearrangement of the input equals the modelled result, so the order does not depend on the sort algorithm |
| Ranking.RankedIsStableSort | services/geminiService.ts:78-86 | the sort result is sorted, a permutation of the input and stable |
| Ranking.InsertAt | services/geminiService.ts:78 | one insertion step in place: the prefix up to `i` becomes the sorted insertion of `a[i]`, the rest of the array is untouched |
| Ranking.SortObjects | services/geminiService.ts:78-86 | the array is sorted in place, and its new contents are the stable ranking of its old contents |
| Strings.SplitJoin | services/geminiService.ts:57 | splitting on a character and joining back with that character gives the original text |
| Strings.ContainsAt | hooks/useSpeech.ts:21 | a text contains `part`, as `includes` reports, whenever `part` occurs at some offset |
| Strings.ContainsSomewhere | hooks/useSpeech.ts:21 | conversely, a text that contains `part` has it at some offset, so containment means occurrence |
| Strings.JoinLength | App.tsx:105 | n parts joined have their total length plus n - 1 separators |
| Analyzer.PayloadNone | services/geminiService.ts:57 | no payload (undefined) exactly when the data URL has no comma |
| Analyzer.PayloadParts | services/geminiService.ts:57 | the payload is the text after the first comma and before any second comma |
| Analyzer.PayloadOfParts | services/geminiService.ts:57 | conversely, the text between the first and any second comma is the payload |
| Analyzer.AnalyzeImage | services/geminiService.ts:53-93 | the payload sent is the split data URL; any failure gives the one generic error and no response; a success gives the reply's summary with its objects ranked |
| Formatter.Fragments | App.tsx:100-104 | exactly one fragment per object, in the order of the objects |
| Formatter.FormatMessage | App.tsx:95-108 | the message is never empty; with no objects a non-empty summary is returned verbatim, otherwise the fallback sentence |
| Formatter.FragmentEmpty | App.tsx:100-104 | a fragment is empty exactly for a nameless object at medium distance in the center |
| Formatter.DescriptionsEmpty | App.tsx:105-107 | the joined fragments are empty exactly for no objects or a single empty fragment, which is when the fallback is used |
| Formatter.MessageFromObjects | App.tsx:100-107 | with objects and something to say, the message is the fragments joined with ". " |
| Formatter.DescriptionsLength | App.tsx:105 | n fragments are separated by n - 1 two-character separators |
| Formatter.QualifiersRoundTrip | App.tsx:101-103 | the qualifier text after a name determines the distance and the position, so omitting the defaults loses nothing |
| Formatter.FragmentDeterminesQualifiers | App.tsx:100-104 | two objects with the same name and the same fragment have the same distance and position |
| Formatter.NamelessDefaultFallsBack | App.tsx:100-107 | a single nameless object at medium distance in the center is announced as "No objects detected." |
| Formatter.DefaultsOmitted | App.tsx:102-103 | a car at medium distance in the center is announced as just "car" |
| Formatter.SingleObjectMessage | App.tsx:100-107 | a single object with a non-empty fragment is announced by its fragment, whatever the summary |
| Formatter.QualifiersSpoken | App.tsx:100-105 | a curb at immediate distance on the left is announced as "curb", " immediate", " to your left" |
| Speech.FindIndex | hooks/useSpeech.ts:19-24 | the position found is the first voice meeting the criterion; none is found only when no voice meets it |
| Speech.SelectVoice | hooks/useSpeech.ts:18-28 | a selected voice is one of the offered voices and has the preferred name or lang en-US; no voice is selected exactly when no voice has the preferred name or lang en-US |
| Speech.SelectsPreferredFirst | hooks/useSpeech.ts:19 | the first voice named "Google US English" wins when there is one |
| Speech.SelectsFamilyNext | hooks/useSpeech.ts:20-22 | otherwise the first en-US voice whose name contains "Google" wins |
| Speech.SelectsLocalLast | hooks/useSpeech.ts:23-25 | otherwise the first en-US voice wins |
| Speech.UtteranceFor | hooks/useSpeech.ts:12-28 | the utterance carries the text and lang en-US, and its voice is exactly the one the fallback chain selects (unset only when no stage matches) |
| Speech.SpeakCalls | hooks/useSpeech.ts:7-31 | speak makes exactly one speak call with the new utterance, preceded by exactly one cancel when something is being spoken and by nothing otherwise |
| Speech.CancelCalls | hooks/useSpeech.ts:33-37 | cancel makes at most one call, a cancel, and makes it exactly when something is being spoken |
| Speech.SpeechEngine.Speak | hooks/useSpeech.ts:7-31 | afterwards the new utterance is the only one queued, and the engine saw a cancel only if it was speaking |
| Speech.SpeechEngine.Cancel | hooks/useSpeech.ts:33-37 | afterwards nothing is queued; with nothing being spoken nothing changes, so a second cancel is a no-op |
| App.Announcement | App.tsx:50-55 | a message is spoken exactly when the response is non-empty and its formatted message differs from the last one, and it is that message |
| App.RepeatIsSilent | App.tsx:52-54 | the message just spoken is not spoken again |
| App.SpokenOnce | App.tsx:52-54 | two ticks in a row with the same response speak at most once |
| App.SummaryAnnounced | App.tsx:50-54 | a new summary without objects is spoken verbatim |
| App.EmptyResultSilent | App.tsx:50 | a response with no objects and no summary is not spoken, although it would format to the fallback sentence |
| App.NamelessDefaultSpoken | App.tsx:50-55 | a single nameless object at medium distance in the center passes the guard and is announced as the fallback sentence, unless that was the last thing said |
| App.EffectStatus | App.tsx:66-73 | the effect sets running while detecting; otherwise running becomes idle, and every other status (error, processing, idle) is left as it is |
| App.DetectionApp.constructor | App.tsx:13-18 | the app starts idle with camera and detection off, no message, a 3000 ms interval and no timer |
| App.DetectionApp.RunEffect | App.tsx:65-83 | the old timer is cleared; while detecting the status is running and a timer with the current interval is armed; otherwise no timer, running falls back to idle and speech is cancelled |
| App.DetectionApp.ToggleCamera | App.tsx:25-40 | switching off forces camera off, detection off and idle; switching on turns the camera on; either way speech is cancelled and no timer remains |
| App.DetectionApp.ToggleDetection | App.tsx:85-93 | the camera is on afterwards and detection is flipped; turning it on arms the timer and shows running, turning it off cancels speech |
| App.DetectionApp.SetDetectionInterval | App.tsx:65-83 | a new interval re-runs the effect, re-arming the timer with it or cancelling speech; the same value changes nothing |
| App.DetectionApp.Announce | App.tsx:50-57 | a new non-empty message is spoken once and remembered, else nothing is spoken; the status returns to running, or to idle when detection is already off |
| App.DetectionApp.ProcessFrame | App.tsx:42-63 | with the camera off or no frame nothing changes; a failure sets error and speaks the fixed phrase once with the last message kept; a success announces the ranked response |

## Left out

- Browser and network I/O: the camera stream, the canvas capture and its JPEG
  encoding, the vision-service client, the API key check, the request schema and
  the JSON parse. The frame and the service's reply are parameters. A reply is
  either parsed objects with enumerated fields or a failure.
- Timing and concurrency: real `setInterval` timing, React re-render scheduling,
  stale closures, and overlapping ticks whose results arrive out of order. Ticks
  and actions are sequential method calls that run to completion.
- App.DetectionApp.ToggleDetection: when the camera is off, the camera update and
  the detection update are taken to be applied in one batch. If they rendered
  separately, one more effect run with detection off would cancel speech first.
  The final state would be the same.
- Speech.SpeechEngine: the voice list is fixed when the engine is made. The
  browser may load voices later, and that is not modelled. `Finish` stands for
  the synthesizer ending an utterance by itself.
- Utterance rate and pitch (floating point) and the audio output.
- The status labels and colours (`getStatusInfo`), the camera error messages,
  the page markup, and the settings panel with its 1000-10000 ms slider range.
  Any integer interval is accepted.
- Ranking.SortObjects: the browser's sort algorithm is engine-defined; the model
  sorts by insertion. `Ranking.RankedCharacterized` shows every stable sort with
  this comparator gives the same result. Urgency or distance strings outside the
  enumerations, which would make the comparator return NaN, are not modelled:
  the reply is taken to conform to the response schema, whose `enum` lists
  (services/geminiService.ts:26-40) the service enforces; the cast of the parsed
  JSON (services/geminiService.ts:75) checks nothing at run time.
