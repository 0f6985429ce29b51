# Push-to-talk service model

A Dafny model of the push-to-talk core of the Capacitor plugin's Android
service `PttForegroundService`. Its broadcast receiver gets the hardware PTT
key intents and forwards each as a `com.itmikes.ptt.event.down` or
`com.itmikes.ptt.event.up` broadcast. On a press it takes the audio focus and
the wake lock, replaces the `MediaRecorder` and starts recording to
`<cacheDir>/ptt_<now>.aac`. On a release it stops the recorder and attaches the
clip as Base64 (section 4 of RFC 4648) with its path, MIME type and duration.
Then it releases the recorder, the focus and the wake lock. The model also
covers the service teardown (`onDestroy`) and the logged list of registered
actions.

Files and modules:

- `wrappers.dfy` (`Wrappers`): `Option`, standing for a Java reference that may be null.
- `text.dfy` (`Text`): `String.contains`, the decimal form of a long, and joining names with a separator.
- `base64.dfy` (`Base64`): the basic Base64 encoder. It has a decoder as its partner, and the lemmas give the output length, the alphabet, the padding and the round trip.
- `intents.dfy` (`Intents`): Java long wrap-around, intent extras, incoming intents and outgoing events, the press test, the forwarded extras, `getLongExtra`, the duration, the clip payload and the clip path.
- `controller.dfy` (`PttController`): the service's fields as one value, `Fields`. Each callback is a function from the fields before to the fields after (`Press`, `Release`, `Receive`, `Destroy`), and lemmas state what the callbacks guarantee. `Consistent` is the resource invariant: only the referenced recorder is live, two recorders are never live at once, and the wake lock is held at most once.
- `service.dfy` (`PttService`): the class `PttForegroundService`. It holds the Java fields and updates them in place. Each method is proved to leave the fields exactly as the matching `PttController` function says. The file also has the loop that builds the logged action list.

What the platform decides is passed in as a parameter of the callback (`Env`):

- the clock;
- the cache directory;
- where, if anywhere, creating, configuring or starting the recorder throws;
- whether `stop()` returns or throws, and with which message;
- the clip file (absent, or its bytes);
- the result of the single `read` call.

Outcomes are values. `onReceive` broadcasts one event, returns early, or throws. `onDestroy` completes or throws.

The model follows the code, including these behaviours:

- A second press without a release is not ignored. It releases the old recorder and creates a new one.
- A release with no press before it sends no up event: on API level 26+ it passes the still-null focus request to `abandonAudioFocusRequest`, which throws IllegalArgumentException (see Findings).
- `durationMs` is the release-time clock minus the incoming up intent's own `timestamp` extra. That extra is 0 when absent or when it is not a long.
- A failed start keeps the focus and the wake lock until the next release.
- A stop failure whose message lacks "stop failed." is rethrown before any release.
- An I/O error while reading the clip returns before the release and the broadcast.

## Model

| member | source | states |
|---|---|---|
| Text.Contains | packages/capacitor-plugin/android/src/main/java/com/itmikes/capacitorintents/PttForegroundService.java:180 | `String.contains` as a prefix test at each position; its meaning is stated by Text.ContainsIff, Text.ContainsSuffix and Text.MissingCharNotContained |
| Text.ContainsIff | packages/capacitor-plugin/android/src/main/java/com/itmikes/capacitorintents/PttForegroundService.java:180 | `String.contains` holds exactly when the substring occurs at some index (both directions) |
| Text.ContainsSuffix | packages/capacitor-plugin/android/src/main/java/com/itmikes/capacitorintents/PttForegroundService.java:180 | a string ending in the substring contains it |
| Text.MissingCharNotContained | packages/capacitor-plugin/android/src/main/java/com/itmikes/capacitorintents/PttForegroundService.java:180 | a string missing any one character of the substring does not contain it |
| Text.NatToDecimalRoundTrip | packages/capacitor-plugin/android/src/main/java/com/itmikes/capacitorintents/PttForegroundService.java:224 | the decimal rendering of a number is a non-empty run of digits that reads back as the number |
| Text.LongToDecimal | packages/capacitor-plugin/android/src/main/java/com/itmikes/capacitorintents/PttForegroundService.java:224 | the decimal text of a long in string concatenation, with a leading "-" exactly for negatives; stated by Text.NatToDecimalRoundTrip and Text.LongToDecimalInjective |
| Text.LongToDecimalInjective | packages/capacitor-plugin/android/src/main/java/com/itmikes/capacitorintents/PttForegroundService.java:224 | two longs with the same decimal text are equal |
| Text.TerminatedIsJoinedPlusSep | packages/capacitor-plugin/android/src/main/java/com/itmikes/capacitorintents/PttForegroundService.java:157-163 | appending every action followed by ", " and then cutting the last two characters gives the actions joined by ", " |
| Text.JoinedEndsWithLast | packages/capacitor-plugin/android/src/main/java/com/itmikes/capacitorintents/PttForegroundService.java:162 | the joined list ends with the last action itself, with no trailing separator |
| PttService.ActionList | packages/capacitor-plugin/android/src/main/java/com/itmikes/capacitorintents/PttForegroundService.java:154-165 | the logged list is "none" when there is no iterator or no action, and otherwise the actions joined by ", " with no trailing separator |
| PttService.RegisteredActionsLogged | packages/capacitor-plugin/android/src/main/java/com/itmikes/capacitorintents/PttForegroundService.java:140-165 | the registered filter logs as "android.intent.action.PTT.down, android.intent.action.PTT.up" |
| PttService.RegisteredDownIsPress | packages/capacitor-plugin/android/src/main/java/com/itmikes/capacitorintents/PttForegroundService.java:180 | the registered ...PTT.down action is classified as a press |
| PttService.RegisteredUpIsRelease | packages/capacitor-plugin/android/src/main/java/com/itmikes/capacitorintents/PttForegroundService.java:180 | the registered ...PTT.up action is classified as a release |
| Base64.Encode | packages/capacitor-plugin/android/src/main/java/com/itmikes/capacitorintents/PttForegroundService.java:267 | `Base64.getEncoder().encodeToString`; its shape is stated by Base64.EncodeShape and its round trip by Base64.DecodeEncode |
| Base64.SymbolInverse | packages/capacitor-plugin/android/src/main/java/com/itmikes/capacitorintents/PttForegroundService.java:267 | each of the 64 values has a symbol of the RFC 4648 alphabet that reads back as that value and is never '=' |
| Base64.EncodeShape | packages/capacitor-plugin/android/src/main/java/com/itmikes/capacitorintents/PttForegroundService.java:267 | the encoding of n bytes has 4*ceil(n/3) characters: alphabet symbols followed by exactly (3 - n mod 3) mod 3 '=' |
| Base64.EncodeShapeStep | packages/capacitor-plugin/android/src/main/java/com/itmikes/capacitorintents/PttForegroundService.java:267 | a full group of four symbols in front of an encoding of the right shape gives an encoding of the right shape |
| Base64.DecodeEncode | packages/capacitor-plugin/android/src/main/java/com/itmikes/capacitorintents/PttForegroundService.java:267 | decoding the encoding gives back exactly the input bytes |
| Base64.EncodeInjective | packages/capacitor-plugin/android/src/main/java/com/itmikes/capacitorintents/PttForegroundService.java:267 | different byte sequences have different encodings |
| Intents.WrapLong | packages/capacitor-plugin/android/src/main/java/com/itmikes/capacitorintents/PttForegroundService.java:272 | the Java long result is congruent to the exact difference modulo 2^64 and equal to it when it fits |
| Intents.IsDown | packages/capacitor-plugin/android/src/main/java/com/itmikes/capacitorintents/PttForegroundService.java:180 | the press test `action.contains("down")`; stated both ways by Intents.IsDownIff |
| Intents.ForwardedAction | packages/capacitor-plugin/android/src/main/java/com/itmikes/capacitorintents/PttForegroundService.java:181 | the custom action: the down event for a press, the up event otherwise; stated by PttController.BroadcastForwardsAction |
| Intents.ForwardedExtras | packages/capacitor-plugin/android/src/main/java/com/itmikes/capacitorintents/PttForegroundService.java:182-187 | originalAction and timestamp, then the incoming extras put over them; stated by Intents.ForwardedExtrasContent |
| Intents.IsDownIff | packages/capacitor-plugin/android/src/main/java/com/itmikes/capacitorintents/PttForegroundService.java:180 | an action is a press exactly when "down" occurs in its text |
| Intents.ForwardedExtrasContent | packages/capacitor-plugin/android/src/main/java/com/itmikes/capacitorintents/PttForegroundService.java:182-187 | the forwarded event carries originalAction and timestamp, and every incoming extra unchanged; the incoming extras override the receiver's own two keys |
| Intents.LongExtra | packages/capacitor-plugin/android/src/main/java/com/itmikes/capacitorintents/PttForegroundService.java:271 | `getLongExtra`: the value of a long extra, the default when the key is absent or not a long; stated by the three Duration lemmas |
| Intents.DurationMs | packages/capacitor-plugin/android/src/main/java/com/itmikes/capacitorintents/PttForegroundService.java:271-272 | the clock minus the incoming timestamp extra, wrapped to a long; stated by Intents.DurationWithoutTimestamp, Intents.DurationWithNonLongTimestamp and Intents.DurationWithTimestamp |
| Intents.DurationWithoutTimestamp | packages/capacitor-plugin/android/src/main/java/com/itmikes/capacitorintents/PttForegroundService.java:271-272 | with no timestamp extra on the incoming intent, durationMs is the clock reading itself |
| Intents.DurationWithNonLongTimestamp | packages/capacitor-plugin/android/src/main/java/com/itmikes/capacitorintents/PttForegroundService.java:271-272 | a timestamp extra that is not a long is ignored, so durationMs is the clock reading |
| Intents.DurationWithTimestamp | packages/capacitor-plugin/android/src/main/java/com/itmikes/capacitorintents/PttForegroundService.java:271-272 | with a long timestamp t <= now on the incoming intent, durationMs is now - t |
| Intents.PayloadExtras | packages/capacitor-plugin/android/src/main/java/com/itmikes/capacitorintents/PttForegroundService.java:267-272 | the payload has exactly audioBase64 (decoding to the buffer), audioPath, mimeType "audio/aac" and durationMs |
| Intents.ClipPath | packages/capacitor-plugin/android/src/main/java/com/itmikes/capacitorintents/PttForegroundService.java:222-224 | `<cacheDir>/ptt_<now>.aac`; stated by Intents.ClipPathInjective |
| Intents.ClipPathInjective | packages/capacitor-plugin/android/src/main/java/com/itmikes/capacitorintents/PttForegroundService.java:224 | presses at different milliseconds record to different paths `<cacheDir>/ptt_<now>.aac` |
| PttController.ReadBuffer | packages/capacitor-plugin/android/src/main/java/com/itmikes/capacitorintents/PttForegroundService.java:260-262 | the buffer has the file's length and holds the bytes the single read returned, followed by zeros |
| PttController.Acquire | packages/capacitor-plugin/android/src/main/java/com/itmikes/capacitorintents/PttForegroundService.java:190-216 | focus requested, the wake lock acquired unless held, the old recorder released; stated by PttController.AcquireEffects |
| PttController.StartRecording | packages/capacitor-plugin/android/src/main/java/com/itmikes/capacitorintents/PttForegroundService.java:216-236 | the new recorder created and started, or the failure caught at the step that threw; stated by PttController.PressEffects |
| PttController.Press | packages/capacitor-plugin/android/src/main/java/com/itmikes/capacitorintents/PttForegroundService.java:190-237 | the press branch; stated by PttController.PressEffects and PttController.TwoPressesOneRecorder |
| PttController.CatchStop | packages/capacitor-plugin/android/src/main/java/com/itmikes/capacitorintents/PttForegroundService.java:245-250 | a stop failure is absorbed when its message contains "stop failed.", rethrown otherwise, and a null message throws NullPointerException; stated by PttController.ReleaseRethrows |
| PttController.ReadClip | packages/capacitor-plugin/android/src/main/java/com/itmikes/capacitorintents/PttForegroundService.java:254-266 | no payload for an absent or empty file, an early return on an I/O error, otherwise the buffer read; stated by PttController.ReleaseReadErrorReturnsEarly and PttController.ReleasePayload |
| PttController.FinishRelease | packages/capacitor-plugin/android/src/main/java/com/itmikes/capacitorintents/PttForegroundService.java:284-298 | the end of a release, with or without a null check on the focus request; stated by PttController.FinishReleaseEffects |
| PttController.ReleaseStep | packages/capacitor-plugin/android/src/main/java/com/itmikes/capacitorintents/PttForegroundService.java:238-301 | the release branch, with or without that null check; stated by PttController.ReleaseKeepsConsistent, PttController.ReleaseEvent and PttController.ReleaseStepEndsIdle |
| PttController.Release | packages/capacitor-plugin/android/src/main/java/com/itmikes/capacitorintents/PttForegroundService.java:238-301 | the release branch as written; stated by PttController.ReleaseEndsIdle, PttController.ReleaseRethrows, PttController.ReleaseReadErrorReturnsEarly, PttController.ReleasePayload and PttController.ReleaseBeforeAnyPressThrows |
| PttController.ReleaseGuarded | packages/capacitor-plugin/android/src/main/java/com/itmikes/capacitorintents/PttForegroundService.java:238-301 | the release branch with the focus request abandoned only when there is one; stated by PttController.ReleaseGuardedEndsIdle and PttController.ReleaseGuardedAgrees |
| PttController.Receive | packages/capacitor-plugin/android/src/main/java/com/itmikes/capacitorintents/PttForegroundService.java:176-302 | onReceive: a press or a release by the press test; stated by PttController.BroadcastForwardsAction, PttController.PressAlwaysBroadcasts and PttController.ReceiveKeepsConsistent |
| PttController.Destroy | packages/capacitor-plugin/android/src/main/java/com/itmikes/capacitorintents/PttForegroundService.java:102-132 | onDestroy as written; stated by PttController.DestroyThrowsWithoutRecorder and PttController.DestroyAfterFailedStartLeaksWakeLock |
| PttController.DestroyGuarded | packages/capacitor-plugin/android/src/main/java/com/itmikes/capacitorintents/PttForegroundService.java:102-132 | onDestroy with a null check on the recorder; stated by PttController.DestroyGuardedReleasesAll and PttController.DestroyGuardedAgrees |
| PttController.InitialIsIdle | packages/capacitor-plugin/android/src/main/java/com/itmikes/capacitorintents/PttForegroundService.java:37-62 | after onCreate nothing is held and the invariant holds |
| PttController.AcquireEffects | packages/capacitor-plugin/android/src/main/java/com/itmikes/capacitorintents/PttForegroundService.java:190-216 | the start of a press leaves focus requested, the wake lock held once and no recorder live |
| PttController.PressEffects | packages/capacitor-plugin/android/src/main/java/com/itmikes/capacitorintents/PttForegroundService.java:190-237 | after a press: focus requested; wake lock held once, acquired only when not held; the old recorder released; a successful start records with the new recorder as the only live one to `<cacheDir>/ptt_<now>.aac`; a failed start leaves nothing recording and no recorder |
| PttController.TwoPressesOneRecorder | packages/capacitor-plugin/android/src/main/java/com/itmikes/capacitorintents/PttForegroundService.java:213-216 | two presses without a release leave at most one live recorder, release the first one, and never have two live at once |
| PttController.ReleaseEndsIdle | packages/capacitor-plugin/android/src/main/java/com/itmikes/capacitorintents/PttForegroundService.java:238-301 | after a press, a release whose stop succeeds or fails with "stop failed.", and whose clip read does not fail, ends with no recording, no recorder, focus abandoned, the wake lock released and one up event broadcast; the same holds when nothing was recording |
| PttController.ReleaseRethrows | packages/capacitor-plugin/android/src/main/java/com/itmikes/capacitorintents/PttForegroundService.java:240-250 | a stop failure with any other message (or none) is thrown before any cleanup: every field is unchanged and nothing is broadcast |
| PttController.ReleaseReadErrorReturnsEarly | packages/capacitor-plugin/android/src/main/java/com/itmikes/capacitorintents/PttForegroundService.java:254-266 | an I/O error reading a non-empty clip returns without a broadcast: recording stopped, but the recorder stays live and the focus and wake lock stay held |
| PttController.ReleasePayload | packages/capacitor-plugin/android/src/main/java/com/itmikes/capacitorintents/PttForegroundService.java:254-276 | the extras of a broadcast release are exactly the forwarded extras, with the payload put over them exactly when a recording ran, its stop got through, the file exists and is non-empty, and the read succeeded; the payload is the Base64 of the bytes read (all of the file when the read returned them all), the current path, "audio/aac" and the time since the incoming intent's timestamp extra |
| PttController.PayloadKeyMarksClip | packages/capacitor-plugin/android/src/main/java/com/itmikes/capacitorintents/PttForegroundService.java:254-272 | when the incoming intent has no audioBase64 extra of its own, the key is in the broadcast exactly when a recording ran, its stop got through and a non-empty clip was read |
| PttController.BroadcastForwardsAction | packages/capacitor-plugin/android/src/main/java/com/itmikes/capacitorintents/PttForegroundService.java:180-187 | every broadcast uses com.itmikes.ptt.event.down exactly for a press and ...up otherwise, and carries the incoming action as originalAction unless an incoming extra overrides it |
| PttController.PressAlwaysBroadcasts | packages/capacitor-plugin/android/src/main/java/com/itmikes/capacitorintents/PttForegroundService.java:212-237 | a press broadcasts its down event even when the start fails |
| PttController.FinishReleaseEffects | packages/capacitor-plugin/android/src/main/java/com/itmikes/capacitorintents/PttForegroundService.java:284-298 | once nothing is recording, the end of a release after a press (or with a null check) releases the recorder, the focus and the wake lock and sends the event; before any press the written code throws IllegalArgumentException and changes nothing |
| PttController.ReleaseKeepsConsistent | packages/capacitor-plugin/android/src/main/java/com/itmikes/capacitorintents/PttForegroundService.java:238-301 | the release branch keeps the resource invariant, on every path including the throws and the early return |
| PttController.ReleaseEvent | packages/capacitor-plugin/android/src/main/java/com/itmikes/capacitorintents/PttForegroundService.java:254-301 | the up event a release sends carries the forwarded extras, plus the clip payload exactly as built from the clip read |
| PttController.ReleaseBeforeAnyPressThrows | packages/capacitor-plugin/android/src/main/java/com/itmikes/capacitorintents/PttForegroundService.java:290-291 | as written, a release before any press passes the null focus request at line 291 and throws IllegalArgumentException: no field changes and nothing is broadcast |
| PttController.UpWithoutDownThrows | packages/capacitor-plugin/android/src/main/java/com/itmikes/capacitorintents/PttForegroundService.java:173-302 | when the first callback the service gets is a release, it throws IllegalArgumentException and sends no up event |
| PttController.ReleaseGuardedEndsIdle | packages/capacitor-plugin/android/src/main/java/com/itmikes/capacitorintents/PttForegroundService.java:284-298 | with the focus request abandoned only when there is one, a release that gets past the stop and the read ends idle with the up event from every consistent state, before any press included |
| PttController.ReleaseStepEndsIdle | packages/capacitor-plugin/android/src/main/java/com/itmikes/capacitorintents/PttForegroundService.java:240-298 | a release with a focus request, or with the null check, that gets past the stop and the read ends idle with the up event |
| PttController.ReleaseGuardedAgrees | packages/capacitor-plugin/android/src/main/java/com/itmikes/capacitorintents/PttForegroundService.java:284-298 | the guarded release matches the written one whenever the written one does not throw at the focus request |
| PttController.ReceiveKeepsConsistent | packages/capacitor-plugin/android/src/main/java/com/itmikes/capacitorintents/PttForegroundService.java:176-302 | every callback keeps the resource invariant |
| PttController.RunKeepsConsistent | packages/capacitor-plugin/android/src/main/java/com/itmikes/capacitorintents/PttForegroundService.java:173-302 | over any sequence of callbacks, two recorders are never live at once and the wake lock is never taken twice |
| PttController.DestroyThrowsWithoutRecorder | packages/capacitor-plugin/android/src/main/java/com/itmikes/capacitorintents/PttForegroundService.java:120-121 | as written, onDestroy throws NullPointerException whenever no recorder is referenced, leaving the wake lock as it was |
| PttController.DestroyAfterFailedStartLeaksWakeLock | packages/capacitor-plugin/android/src/main/java/com/itmikes/capacitorintents/PttForegroundService.java:102-132 | a press whose start fails, then onDestroy: the teardown throws and the wake lock stays held |
| PttController.DestroyGuardedReleasesAll | packages/capacitor-plugin/android/src/main/java/com/itmikes/capacitorintents/PttForegroundService.java:102-132 | with a null check on the recorder, the teardown from any consistent state unregisters the receiver, releases every recorder, the focus and the wake lock, and deletes the current clip |
| PttController.DestroyGuardedAgrees | packages/capacitor-plugin/android/src/main/java/com/itmikes/capacitorintents/PttForegroundService.java:102-132 | the guarded teardown matches the written one whenever the written one completes |
| PttService.PttForegroundService.constructor | packages/capacitor-plugin/android/src/main/java/com/itmikes/capacitorintents/PttForegroundService.java:49-62 | onCreate leaves the fields in the initial, idle state |
| PttService.PttForegroundService.ReleaseMediaRecorder | packages/capacitor-plugin/android/src/main/java/com/itmikes/capacitorintents/PttForegroundService.java:213-215 | `mediaRecorder.release()`: the recorder is no longer live and the field keeps its reference, exactly as ReleaseRecorder says |
| PttService.PttForegroundService.CreateMediaRecorder | packages/capacitor-plugin/android/src/main/java/com/itmikes/capacitorintents/PttForegroundService.java:216 | `mediaRecorder = new MediaRecorder()`: a fresh recorder becomes live and is referenced, exactly as NewRecorder says |
| PttService.PttForegroundService.AbandonStartedRecorder | packages/capacitor-plugin/android/src/main/java/com/itmikes/capacitorintents/PttForegroundService.java:230-236 | the catch of a failed start: not recording, and the recorder released and dropped, exactly as AbandonStart says |
| PttService.PttForegroundService.OnReceive | packages/capacitor-plugin/android/src/main/java/com/itmikes/capacitorintents/PttForegroundService.java:176-302 | onReceive updates the fields and yields the outcome exactly as Receive does, and keeps the invariant |
| PttService.PttForegroundService.OnPress | packages/capacitor-plugin/android/src/main/java/com/itmikes/capacitorintents/PttForegroundService.java:190-237 | the press branch updates the fields exactly as Press does |
| PttService.PttForegroundService.PrepareForPress | packages/capacitor-plugin/android/src/main/java/com/itmikes/capacitorintents/PttForegroundService.java:190-216 | requesting focus, taking the wake lock unless held and releasing the old recorder update the fields exactly as Acquire does |
| PttService.PttForegroundService.StartRecorder | packages/capacitor-plugin/android/src/main/java/com/itmikes/capacitorintents/PttForegroundService.java:212-237 | creating, configuring and starting the recorder, or catching its failure, updates the fields exactly as StartRecording does |
| PttService.PttForegroundService.OnRelease | packages/capacitor-plugin/android/src/main/java/com/itmikes/capacitorintents/PttForegroundService.java:238-301 | the release branch, with its early return and throws, updates the fields and yields the outcome exactly as Release does |
| PttService.PttForegroundService.ReleaseAndBroadcast | packages/capacitor-plugin/android/src/main/java/com/itmikes/capacitorintents/PttForegroundService.java:284-301 | the end of the release branch, with its throw at line 291 before any press, updates the fields and yields the outcome exactly as FinishRelease does |
| PttService.PttForegroundService.OnDestroy | packages/capacitor-plugin/android/src/main/java/com/itmikes/capacitorintents/PttForegroundService.java:102-132 | onDestroy as written updates the fields and yields the outcome exactly as Destroy does |

## Left out

- Notification channel, foreground start, `onStartCommand`, `onBind` and the `isRunning` flag: Android lifecycle and presentation, with no logic to state.
- Receiver registration and unregistration are only a flag. A failure of `registerReceiver` (caught and logged) is not modelled.
- `sendBroadcast` and the intent transport: the broadcast event is returned as the outcome.
- The recorder's configuration (voice source, MPEG-4/AAC, 16 kHz, 128 kbps) and the audio capture: a recorder is a handle, and the outcomes of its start and stop are parameters.
- Only the API level 26+ branch is modelled: focus through an `AudioFocusRequest`, as one flag (requested and not yet abandoned) plus whether a request object exists. `AudioManager.abandonAudioFocusRequest` is modelled only by its rejection of a null request with IllegalArgumentException. The legacy focus calls, the grant result (only logged) and the focus-change listener (only logs) are not modelled.
- The wake lock's 30-minute timeout: time passing between callbacks is not modelled, so the lock never expires on its own.
- The file system: the clip file is a parameter and its deletion is reported as the outcome. Files of 2^31 bytes or more (where the `(int)` cast of the length misbehaves) are not modelled.
- The clock: the two `currentTimeMillis` readings of each callback are taken as one value (lines 184 and 224 for a press, lines 184 and 272 for a release).
- `initializeMediaRecorder`: dead code, since its only call is commented out.
- A null intent action, which would throw at line 180: the filter delivers only its registered actions, so the action is a string.
- Logging, the unused `fos` field, and threading: callbacks arrive one at a time on the main looper.

## Findings

| source | as written | input that shows it | evidently intended | confidence | as-written member | corrected member |
|---|---|---|---|---|---|---|
| packages/capacitor-plugin/android/src/main/java/com/itmikes/capacitorintents/PttForegroundService.java:120-121 | `mediaRecorder.release()` runs without a null check | destroy the service after any completed release, after a failed start, or before any press: `mediaRecorder` is null, the call throws NullPointerException, and the wake lock release and clip deletion are skipped | release the recorder only when there is one, as the release path does at lines 284-287 | high (not executed) | PttController.DestroyThrowsWithoutRecorder | PttController.DestroyGuardedReleasesAll |
| packages/capacitor-plugin/android/src/main/java/com/itmikes/capacitorintents/PttForegroundService.java:291 | `abandonAudioFocusRequest(audioFocusRequest)` runs without a null check | an up intent before any down intent: `audioFocusRequest` is still null, the platform throws IllegalArgumentException, and no up event is broadcast | abandon the request only when there is one, as onDestroy does at lines 109 and 122 | medium: relies on AudioManager rejecting a null request (not executed) | PttController.ReleaseBeforeAnyPressThrows | PttController.ReleaseGuardedEndsIdle |
