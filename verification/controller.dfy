/** The push-to-talk controller of PttForegroundService, as functions from the
    service's fields before a callback to its fields after it. The class in
    PttService runs the same steps in place; these functions are what its
    methods are proved against, and the lemmas below state what the callbacks
    guarantee. */
module PttController {
  import opened Wrappers
  import opened Text
  import opened Base64
  import opened Intents

  /** A MediaRecorder instance, named by the order in which it was created. */
  type RecorderId = nat

  /** How `new MediaRecorder()`, its configuration, setOutputFile, prepare and
      start went: all succeeded, or the first exception came from the
      constructor, from a step before the output path is chosen, or from a
      step after it. */
  datatype StartOutcome = Started | FailedAtCreate | FailedBeforeOutputFile | FailedAfterOutputFile

  /** MediaRecorder.stop(): returned, or threw a RuntimeException whose message may be null. */
  datatype StopOutcome = Stopped | StopThrew(message: Option<string>)

  /** The single FileInputStream.read call: an IOException, or the number of bytes it returned. */
  datatype ReadOutcome = ReadFailed | ReadBytes(count: nat)

  /** What the platform answers during one callback: the clock (every
      currentTimeMillis reading of the callback), the cache directory, the
      recorder's start and stop results, the clip file (absent, or its
      contents) and the read of it. */
  datatype Env = Env(now: Long, cacheDir: string, start: StartOutcome, stop: StopOutcome,
                     clip: Option<seq<byte>>, read: ReadOutcome)

  /** The exceptions that escape a callback. */
  datatype Exception = NullPointer | IllegalArgument | RecorderError(message: string)

  /** How onReceive ends: it broadcasts one event, returns early without one, or throws. */
  datatype ReceiveOutcome = Broadcast(event: Event) | ReturnedEarly | Threw(error: Exception)

  /** How onDestroy ends: it completes (deleting the current clip file, if any) or throws. */
  datatype DestroyOutcome = Destroyed(deleted: Option<string>) | DestroyThrew(error: Exception)

  /** The service's fields. `live` is the set of recorders created and not yet
      released, `peakLive` the most that were ever live at one moment, and
      `focusHeld` says focus was requested and not abandoned since, and
      `wakeLockCount` is the reference count of the wake lock (held when positive). */
  datatype Fields = Fields(
    receiverRegistered: bool,
    mediaRecorder: Option<RecorderId>,
    recordersCreated: nat,
    live: set<RecorderId>,
    peakLive: nat,
    isRecording: bool,
    currentRecordingPath: Option<string>,
    hasFocusRequest: bool,
    focusHeld: bool,
    wakeLockCount: nat)

  /** The fields after onCreate: receiver registered, nothing else held. */
  function Initial(): Fields
  {
    Fields(true, None, 0, {}, 0, false, None, false, false, 0)
  }

  function Referenced(recorder: Option<RecorderId>): set<RecorderId>
  {
    if recorder.Some? then {recorder.value} else {}
  }

  /** The resource invariant: no recorder is live except the one the field refers to
      (and never were two live at once), the wake lock is held at most once, a
      recording has a live recorder and a path, and a recorder, the wake lock or the
      focus is held only once a focus request exists (all are taken by a press). */
  predicate Consistent(f: Fields)
  {
    && f.live <= Referenced(f.mediaRecorder)
    && (f.mediaRecorder.Some? ==> f.mediaRecorder.value < f.recordersCreated)
    && f.peakLive <= 1
    && f.wakeLockCount <= 1
    && (f.isRecording ==>
          f.mediaRecorder.Some? && f.mediaRecorder.value in f.live && f.currentRecordingPath.Some?)
    && (f.focusHeld ==> f.hasFocusRequest)
    && (f.mediaRecorder.Some? || f.wakeLockCount > 0 ==> f.hasFocusRequest)
  }

  /** No recorder, no recording, no focus, no wake lock. */
  predicate Idle(f: Fields)
  {
    f.mediaRecorder.None? && f.live == {} && !f.isRecording && !f.focusHeld && f.wakeLockCount == 0
  }

  // ---------------------------------------------------------------------------
  // Steps shared by the callbacks

  /** mediaRecorder.release(): the recorder the field refers to is no longer live;
      the field itself still refers to it. */
  function ReleaseRecorder(f: Fields): Fields
  {
    f.(live := f.live - Referenced(f.mediaRecorder))
  }

  /** mediaRecorder = new MediaRecorder(). */
  function NewRecorder(f: Fields): Fields
  {
    var id := f.recordersCreated;
    var live := f.live + {id};
    f.(mediaRecorder := Some(id), recordersCreated := id + 1, live := live,
       peakLive := if |live| > f.peakLive then |live| else f.peakLive)
  }

  /** The catch block of a failed start: not recording, and the recorder (if any) released and dropped. */
  function AbandonStart(f: Fields): Fields
  {
    var g := f.(isRecording := false);
    if g.mediaRecorder.Some? then ReleaseRecorder(g).(mediaRecorder := None) else g
  }

  /** Wake-lock release: one reference less when held. */
  function ReleaseWakeLock(f: Fields): Fields
  {
    if f.wakeLockCount > 0 then f.(wakeLockCount := f.wakeLockCount - 1) else f
  }

  /** The end of a release: the recorder released and dropped, the focus request
      abandoned, the wake lock released, and the event broadcast. Abandoning a null
      request throws IllegalArgumentException before the wake lock is touched, unless
      `focusNullCheck` guards the call as onDestroy does. */
  function FinishRelease(f: Fields, event: Event, focusNullCheck: bool): (Fields, ReceiveOutcome)
  {
    var g := if f.mediaRecorder.Some? then ReleaseRecorder(f).(mediaRecorder := None) else f;
    if g.hasFocusRequest then (ReleaseWakeLock(g.(focusHeld := false)), Broadcast(event))
    else if focusNullCheck then (ReleaseWakeLock(g), Broadcast(event))
    else (g, Threw(IllegalArgument))
  }

  // ---------------------------------------------------------------------------
  // onReceive

  /** The start of a press: request focus, take the wake lock unless it is held,
      release any recorder from before. */
  function Acquire(f: Fields): Fields
  {
    var focused := f.(hasFocusRequest := true, focusHeld := true);
    var locked := if focused.wakeLockCount == 0 then focused.(wakeLockCount := focused.wakeLockCount + 1) else focused;
    ReleaseRecorder(locked)
  }

  /** Create, configure and start a new recorder; a failure at any step is caught. */
  function StartRecording(f: Fields, env: Env): Fields
  {
    var path := Some(ClipPath(env.cacheDir, env.now));
    match env.start
    case FailedAtCreate => AbandonStart(f)
    case FailedBeforeOutputFile => AbandonStart(NewRecorder(f))
    case FailedAfterOutputFile => AbandonStart(NewRecorder(f).(currentRecordingPath := path))
    case Started => NewRecorder(f).(currentRecordingPath := path, isRecording := true)
  }

  /** A press: Acquire, then start recording. */
  function Press(f: Fields, env: Env): Fields
  {
    StartRecording(Acquire(f), env)
  }

  /** What the catch of a failed stop does: a message containing "stop failed." is
      absorbed, any other is rethrown, and a null message fails the test itself. */
  datatype StopVerdict = Continue | Rethrow(error: Exception)

  function CatchStop(stop: StopOutcome): StopVerdict
  {
    match stop
    case Stopped => Continue
    case StopThrew(None) => Rethrow(NullPointer)
    case StopThrew(Some(m)) => if Contains(m, "stop failed.") then Continue else Rethrow(RecorderError(m))
  }

  /** The buffer after one read of `count` bytes into a zeroed array of the file's length. */
  function ReadBuffer(bytes: seq<byte>, count: nat): (r: seq<byte>)
    ensures |r| == |bytes|
    ensures forall i :: 0 <= i < |r| ==> r[i] == if i < count then bytes[i] else 0
  {
    if count >= |bytes| then bytes else bytes[..count] + seq(|bytes| - count, _ => 0)
  }

  /** The clip file after a stop: absent or empty (no payload), unreadable, or read into a buffer. */
  datatype ClipRead = NoClip | ReadError | ClipBytes(buffer: seq<byte>)

  function ReadClip(env: Env): ClipRead
  {
    match env.clip
    case None => NoClip
    case Some(bytes) =>
      if |bytes| == 0 then NoClip
      else match env.read
        case ReadFailed => ReadError
        case ReadBytes(n) => ClipBytes(ReadBuffer(bytes, n))
  }

  /** A release as written: the focus request is abandoned without a null check. */
  function Release(f: Fields, intent: Intent, env: Env): (Fields, ReceiveOutcome)
  {
    ReleaseStep(f, intent, env, false)
  }

  /** A release with the focus request abandoned only when there is one. */
  function ReleaseGuarded(f: Fields, intent: Intent, env: Env): (Fields, ReceiveOutcome)
  {
    ReleaseStep(f, intent, env, true)
  }

  /** A release: stop the recording if one is running, attach the clip, then release everything. */
  function ReleaseStep(f: Fields, intent: Intent, env: Env, focusNullCheck: bool): (Fields, ReceiveOutcome)
  {
    var extras := ForwardedExtras(intent, env.now);
    if f.mediaRecorder.Some? && f.isRecording then
      var verdict := CatchStop(env.stop);
      if verdict.Rethrow? then (f, Threw(verdict.error))
      else
        var stopped := f.(isRecording := false);
        if stopped.currentRecordingPath.None? then (stopped, Threw(NullPointer))
        else
          var path := stopped.currentRecordingPath.value;
          match ReadClip(env)
          case ReadError => (stopped, ReturnedEarly)
          case NoClip => FinishRelease(stopped, Event(UpAction, extras), focusNullCheck)
          case ClipBytes(buffer) =>
            FinishRelease(stopped, Event(UpAction, extras + PayloadExtras(buffer, path, DurationMs(intent, env.now))),
                          focusNullCheck)
    else FinishRelease(f, Event(UpAction, extras), focusNullCheck)
  }

  /** onReceive: classify the action, then press or release. */
  function Receive(f: Fields, intent: Intent, env: Env): (Fields, ReceiveOutcome)
  {
    if IsDown(intent.action) then
      (Press(f, env), Broadcast(Event(ForwardedAction(intent.action), ForwardedExtras(intent, env.now))))
    else Release(f, intent, env)
  }

  /** The state after a sequence of callbacks. */
  function Run(f: Fields, steps: seq<(Intent, Env)>): Fields
    decreases |steps|
  {
    if steps == [] then f
    else Run(Receive(f, steps[0].0, steps[0].1).0, steps[1..])
  }

  // ---------------------------------------------------------------------------
  // onDestroy

  /** The teardown as written: unregister, abandon focus, stop a running recording
      (an exception is only logged), then release the recorder without checking
      that there is one, release the wake lock and delete the clip. */
  function Destroy(f: Fields, stopOk: bool): (Fields, DestroyOutcome)
  {
    var unregistered := f.(receiverRegistered := false);
    var unfocused := if unregistered.hasFocusRequest then unregistered.(focusHeld := false) else unregistered;
    var stopped := if unfocused.isRecording && unfocused.mediaRecorder.Some? && stopOk
                   then unfocused.(isRecording := false) else unfocused;
    if stopped.mediaRecorder.None? then (stopped, DestroyThrew(NullPointer))
    else
      var done := ReleaseWakeLock(ReleaseRecorder(stopped).(mediaRecorder := None));
      (done, Destroyed(done.currentRecordingPath))
  }

  /** The teardown with the recorder release guarded by a null check. */
  function DestroyGuarded(f: Fields, stopOk: bool): (Fields, DestroyOutcome)
  {
    var unregistered := f.(receiverRegistered := false);
    var unfocused := if unregistered.hasFocusRequest then unregistered.(focusHeld := false) else unregistered;
    var stopped := if unfocused.isRecording && unfocused.mediaRecorder.Some? && stopOk
                   then unfocused.(isRecording := false) else unfocused;
    var dropped := if stopped.mediaRecorder.Some? then ReleaseRecorder(stopped).(mediaRecorder := None) else stopped;
    var done := ReleaseWakeLock(dropped);
    (done, Destroyed(done.currentRecordingPath))
  }

  // ---------------------------------------------------------------------------
  // What the callbacks guarantee

  /** The service starts consistent and idle. */
  lemma InitialIsIdle()
    ensures Consistent(Initial()) && Idle(Initial())
  {
  }

  /** A press ends with focus requested and the wake lock held exactly once (acquired
      only when it was not held). Any recorder from before is released, even when
      no release came in between. On a successful start the new recorder is the
      only live one, it is recording, and the path is <cacheDir>/ptt_<now>.aac; on
      a failed start nothing is recording and no recorder remains. */
  lemma PressEffects(f: Fields, env: Env)
    requires Consistent(f)
    ensures var g := Press(f, env);
      && Consistent(g)
      && g.focusHeld && g.hasFocusRequest
      && g.wakeLockCount == 1
      && (f.mediaRecorder.Some? ==> f.mediaRecorder.value !in g.live)
      && (env.start == Started ==>
            && g.isRecording
            && g.mediaRecorder == Some(f.recordersCreated)
            && g.live == {f.recordersCreated}
            && g.currentRecordingPath == Some(ClipPath(env.cacheDir, env.now)))
      && (env.start != Started ==>
            && !g.isRecording && g.mediaRecorder.None? && g.live == {}
            && g.currentRecordingPath == if env.start == FailedAfterOutputFile
                                         then Some(ClipPath(env.cacheDir, env.now))
                                         else f.currentRecordingPath)
  {
    var cleared := Acquire(f);
    var path := Some(ClipPath(env.cacheDir, env.now));
    AcquireEffects(f);
    match env.start {
      case FailedAtCreate =>
        assert Press(f, env) == AbandonStart(cleared);
      case FailedBeforeOutputFile =>
        NewRecorderAlone(cleared);
        assert Press(f, env) == AbandonStart(NewRecorder(cleared));
      case FailedAfterOutputFile =>
        NewRecorderAlone(cleared);
        assert Press(f, env) == AbandonStart(NewRecorder(cleared).(currentRecordingPath := path));
      case Started =>
        NewRecorderAlone(cleared);
        assert Press(f, env) == NewRecorder(cleared).(currentRecordingPath := path, isRecording := true);
    }
  }

  /** The start of a press leaves focus held, the wake lock held once and no recorder live. */
  lemma AcquireEffects(f: Fields)
    requires Consistent(f)
    ensures var c := Acquire(f);
      && c.live == {} && c.peakLive <= 1 && c.wakeLockCount == 1 && c.focusHeld && c.hasFocusRequest
      && c.recordersCreated == f.recordersCreated && c.mediaRecorder == f.mediaRecorder
      && c.currentRecordingPath == f.currentRecordingPath
  {
  }

  /** Creating a recorder when none is live makes it the only live one. */
  lemma NewRecorderAlone(c: Fields)
    requires c.live == {} && c.peakLive <= 1
    ensures NewRecorder(c).live == {c.recordersCreated}
    ensures NewRecorder(c).peakLive <= 1
  {
    assert c.live + {c.recordersCreated} == {c.recordersCreated};
  }

  /** Two presses with no release in between: still at most one recorder live,
      the first press's recorder has been released, and two were never live at once. */
  lemma TwoPressesOneRecorder(f: Fields, first: Env, second: Env)
    requires Consistent(f)
    ensures var g := Press(Press(f, first), second);
      && |g.live| <= 1 && g.live <= Referenced(g.mediaRecorder) && g.peakLive <= 1
      && (Press(f, first).mediaRecorder.Some? ==> Press(f, first).mediaRecorder.value !in g.live)
  {
    PressEffects(f, first);
    PressEffects(Press(f, first), second);
  }

  /** After a press, a release ends idle with exactly one event, the up event,
      whenever it gets past the stop and the read: when nothing was recording, when
      stop returned or failed with "stop failed.", and the clip was absent, empty
      or readable. */
  lemma ReleaseEndsIdle(f: Fields, intent: Intent, env: Env)
    requires Consistent(f) && f.hasFocusRequest
    requires f.mediaRecorder.Some? && f.isRecording ==> CatchStop(env.stop).Continue? && !ReadClip(env).ReadError?
    ensures var (g, outcome) := Release(f, intent, env);
      && Consistent(g) && Idle(g)
      && outcome.Broadcast? && outcome.event.action == UpAction
  {
    ReleaseStepEndsIdle(f, intent, env, false);
  }

  /** The common proof: a release that may abandon the focus request ends idle. */
  lemma ReleaseStepEndsIdle(f: Fields, intent: Intent, env: Env, focusNullCheck: bool)
    requires Consistent(f) && (f.hasFocusRequest || focusNullCheck)
    requires f.mediaRecorder.Some? && f.isRecording ==> CatchStop(env.stop).Continue? && !ReadClip(env).ReadError?
    ensures var (g, outcome) := ReleaseStep(f, intent, env, focusNullCheck);
      && Consistent(g) && Idle(g)
      && outcome.Broadcast? && outcome.event.action == UpAction
  {
    var extras := ForwardedExtras(intent, env.now);
    if f.mediaRecorder.Some? && f.isRecording {
      var stopped := f.(isRecording := false);
      match ReadClip(env)
      case NoClip => FinishReleaseEffects(stopped, Event(UpAction, extras), focusNullCheck);
      case ClipBytes(buffer) =>
        var payload := PayloadExtras(buffer, stopped.currentRecordingPath.value, DurationMs(intent, env.now));
        FinishReleaseEffects(stopped, Event(UpAction, extras + payload), focusNullCheck);
    } else {
      FinishReleaseEffects(f, Event(UpAction, extras), focusNullCheck);
    }
  }

  /** The end of a release, once nothing is recording: after a press (or with the null
      check) everything is released and the event is sent; before any press the
      written code throws, with nothing to release and nothing changed. */
  lemma FinishReleaseEffects(f: Fields, event: Event, focusNullCheck: bool)
    requires Consistent(f) && !f.isRecording
    ensures var (g, outcome) := FinishRelease(f, event, focusNullCheck);
      && Consistent(g)
      && (f.hasFocusRequest || focusNullCheck ==> Idle(g) && outcome == Broadcast(event))
      && (!f.hasFocusRequest && !focusNullCheck ==> g == f && outcome == Threw(IllegalArgument))
  {
  }

  /** The release branch keeps the resource invariant. */
  lemma ReleaseKeepsConsistent(f: Fields, intent: Intent, env: Env, focusNullCheck: bool)
    requires Consistent(f)
    ensures Consistent(ReleaseStep(f, intent, env, focusNullCheck).0)
  {
    var extras := ForwardedExtras(intent, env.now);
    if f.mediaRecorder.Some? && f.isRecording {
      var stopped := f.(isRecording := false);
      if CatchStop(env.stop).Continue? && stopped.currentRecordingPath.Some? {
        match ReadClip(env)
        case ReadError =>
        case NoClip => FinishReleaseEffects(stopped, Event(UpAction, extras), focusNullCheck);
        case ClipBytes(buffer) =>
          var payload := PayloadExtras(buffer, stopped.currentRecordingPath.value, DurationMs(intent, env.now));
          FinishReleaseEffects(stopped, Event(UpAction, extras + payload), focusNullCheck);
      }
    } else {
      FinishReleaseEffects(f, Event(UpAction, extras), focusNullCheck);
    }
  }

  /** A stop failure whose message lacks "stop failed." (or has no message) is thrown
      out of the callback before any cleanup: every field is as it was and nothing is broadcast. */
  lemma ReleaseRethrows(f: Fields, intent: Intent, env: Env)
    requires f.mediaRecorder.Some? && f.isRecording
    requires env.stop.StopThrew?
    requires env.stop.message.Some? ==> !Contains(env.stop.message.value, "stop failed.")
    ensures Release(f, intent, env).0 == f
    ensures Release(f, intent, env).1 == Threw(if env.stop.message.Some? then RecorderError(env.stop.message.value) else NullPointer)
  {
  }

  /** An IOException while reading a non-empty clip returns before the cleanup and
      the broadcast: the recording is stopped, but the recorder stays live and the
      focus and wake lock stay held. */
  lemma ReleaseReadErrorReturnsEarly(f: Fields, intent: Intent, env: Env)
    requires Consistent(f)
    requires f.mediaRecorder.Some? && f.isRecording
    requires CatchStop(env.stop).Continue?
    requires env.clip.Some? && |env.clip.value| > 0 && env.read == ReadFailed
    ensures Release(f, intent, env).1 == ReturnedEarly
    ensures Release(f, intent, env).0 == f.(isRecording := false)
    ensures Consistent(Release(f, intent, env).0)
  {
  }

  /** A recording was running, the clip file exists and is non-empty, and the read succeeded. */
  predicate ClipAttached(f: Fields, env: Env)
  {
    f.mediaRecorder.Some? && f.isRecording && env.clip.Some? && |env.clip.value| > 0 && env.read.ReadBytes?
  }

  /** The extras of a broadcast release are the forwarded extras, with the payload
      put over them exactly when a recording ran, its stop got through, and a
      non-empty clip was read: the Base64 of the bytes read (all of the file when
      the read returned them all), the current path, "audio/aac", and the time
      since the incoming intent's own timestamp extra. */
  lemma ReleasePayload(f: Fields, intent: Intent, env: Env)
    requires Consistent(f)
    requires Release(f, intent, env).1.Broadcast?
    ensures var ex := Release(f, intent, env).1.event.extras;
      && (!ClipAttached(f, env) ==> ex == ForwardedExtras(intent, env.now))
      && (ClipAttached(f, env) ==>
            && ex == ForwardedExtras(intent, env.now)
                     + PayloadExtras(ReadBuffer(env.clip.value, env.read.count), f.currentRecordingPath.value,
                                     DurationMs(intent, env.now))
            && ex["audioBase64"].StringValue?
            && Decode(ex["audioBase64"].s) == Some(ReadBuffer(env.clip.value, env.read.count))
            && (env.read.count >= |env.clip.value| ==> Decode(ex["audioBase64"].s) == Some(env.clip.value))
            && ex["audioPath"] == StringValue(f.currentRecordingPath.value)
            && ex["mimeType"] == StringValue(MimeType)
            && ex["durationMs"] == LongValue(DurationMs(intent, env.now)))
  {
  }

  /** When the incoming intent carries no audioBase64 extra of its own, the key
      marks the clip: it is in the broadcast exactly when the clip was attached. */
  lemma PayloadKeyMarksClip(f: Fields, intent: Intent, env: Env)
    requires Consistent(f)
    requires intent.extras.Some? ==> "audioBase64" !in intent.extras.value
    requires Release(f, intent, env).1.Broadcast?
    ensures "audioBase64" in Release(f, intent, env).1.event.extras <==> ClipAttached(f, env)
  {
    ReleasePayload(f, intent, env);
  }

  /** Every broadcast goes out under the forwarded action of the incoming one
      (com.itmikes.ptt.event.down for a press, ...up otherwise) and carries the
      incoming action as originalAction, unless the incoming extras override it. */
  lemma BroadcastForwardsAction(f: Fields, intent: Intent, env: Env)
    requires Receive(f, intent, env).1.Broadcast?
    ensures var ev := Receive(f, intent, env).1.event;
      && ev.action == ForwardedAction(intent.action)
      && (ev.action == DownAction <==> IsDown(intent.action))
      && "originalAction" in ev.extras
      && (intent.extras.None? || "originalAction" !in intent.extras.value
          ==> ev.extras["originalAction"] == StringValue(intent.action))
  {
    ForwardedExtrasContent(intent, env.now);
    if !IsDown(intent.action) {
      ReleaseEvent(f, intent, env, false);
    }
  }

  /** The event a release sends is the up event with the forwarded extras, plus the clip payload when there is one. */
  lemma ReleaseEvent(f: Fields, intent: Intent, env: Env, focusNullCheck: bool)
    requires ReleaseStep(f, intent, env, focusNullCheck).1.Broadcast?
    ensures var ev := ReleaseStep(f, intent, env, focusNullCheck).1.event;
      && ev.action == UpAction
      && (ev.extras == ForwardedExtras(intent, env.now)
          || (&& f.currentRecordingPath.Some? && ReadClip(env).ClipBytes?
              && ev.extras == ForwardedExtras(intent, env.now)
                 + PayloadExtras(ReadClip(env).buffer, f.currentRecordingPath.value, DurationMs(intent, env.now))))
  {
  }

  /** A press always broadcasts (a failed start is only logged). */
  lemma PressAlwaysBroadcasts(f: Fields, intent: Intent, env: Env)
    requires IsDown(intent.action)
    ensures Receive(f, intent, env).1 == Broadcast(Event(DownAction, ForwardedExtras(intent, env.now)))
  {
  }

  /** As written, a release before any press (no focus request yet) passes the null
      request to abandonAudioFocusRequest, which throws: nothing changes and nothing
      is broadcast. */
  lemma ReleaseBeforeAnyPressThrows(f: Fields, intent: Intent, env: Env)
    requires Consistent(f) && !f.hasFocusRequest
    ensures Release(f, intent, env) == (f, Threw(IllegalArgument))
  {
  }

  /** The concrete case: the first callback the service gets is a release. */
  lemma UpWithoutDownThrows(intent: Intent, env: Env)
    requires !IsDown(intent.action)
    ensures Receive(Initial(), intent, env) == (Initial(), Threw(IllegalArgument))
  {
    ReleaseBeforeAnyPressThrows(Initial(), intent, env);
  }

  /** With the null check, a release that gets past the stop and the read ends idle
      with the up event from every consistent state, a release before any press included. */
  lemma ReleaseGuardedEndsIdle(f: Fields, intent: Intent, env: Env)
    requires Consistent(f)
    requires f.mediaRecorder.Some? && f.isRecording ==> CatchStop(env.stop).Continue? && !ReadClip(env).ReadError?
    ensures var (g, outcome) := ReleaseGuarded(f, intent, env);
      && Consistent(g) && Idle(g)
      && outcome.Broadcast? && outcome.event.action == UpAction
  {
    ReleaseStepEndsIdle(f, intent, env, true);
  }

  /** The guarded release agrees with the written one whenever the latter does not throw at the focus request. */
  lemma ReleaseGuardedAgrees(f: Fields, intent: Intent, env: Env)
    requires Release(f, intent, env).1 != Threw(IllegalArgument)
    ensures ReleaseGuarded(f, intent, env) == Release(f, intent, env)
  {
  }

  /** Every callback keeps the resource invariant. */
  lemma ReceiveKeepsConsistent(f: Fields, intent: Intent, env: Env)
    requires Consistent(f)
    ensures Consistent(Receive(f, intent, env).0)
  {
    if IsDown(intent.action) {
      PressEffects(f, env);
    } else {
      ReleaseKeepsConsistent(f, intent, env, false);
    }
  }

  /** Over any sequence of callbacks the invariant holds: at no point were two
      recorders live and the wake lock was never taken twice. */
  lemma {:induction false} RunKeepsConsistent(f: Fields, steps: seq<(Intent, Env)>)
    requires Consistent(f)
    ensures Consistent(Run(f, steps))
    decreases |steps|
  {
    if steps != [] {
      ReceiveKeepsConsistent(f, steps[0].0, steps[0].1);
      RunKeepsConsistent(Receive(f, steps[0].0, steps[0].1).0, steps[1..]);
    }
  }

  /** As written, onDestroy throws a NullPointerException whenever no recorder is
      referenced (before any press, after any release, after a failed start), and
      the wake lock is then not released and the clip not deleted. */
  lemma DestroyThrowsWithoutRecorder(f: Fields, stopOk: bool)
    requires f.mediaRecorder.None?
    ensures Destroy(f, stopOk).1 == DestroyThrew(NullPointer)
    ensures Destroy(f, stopOk).0.wakeLockCount == f.wakeLockCount
  {
  }

  /** The concrete case: a press whose start fails holds the wake lock with no
      recorder; the teardown that follows throws and leaves the wake lock held. */
  lemma DestroyAfterFailedStartLeaksWakeLock(env: Env, stopOk: bool)
    requires env.start != Started
    ensures var f := Press(Initial(), env);
      && f.wakeLockCount == 1
      && Destroy(f, stopOk).1 == DestroyThrew(NullPointer)
      && Destroy(f, stopOk).0.wakeLockCount == 1
  {
    PressEffects(Initial(), env);
  }

  /** With the null check, the teardown completes from every consistent state:
      receiver unregistered, no recorder live, focus abandoned, wake lock released,
      and the current clip (if any) deleted. */
  lemma DestroyGuardedReleasesAll(f: Fields, stopOk: bool)
    requires Consistent(f)
    ensures var (g, outcome) := DestroyGuarded(f, stopOk);
      && outcome == Destroyed(f.currentRecordingPath)
      && !g.receiverRegistered
      && g.mediaRecorder.None? && g.live == {}
      && !g.focusHeld && g.wakeLockCount == 0
  {
  }

  /** The guarded teardown agrees with the written one whenever the latter completes. */
  lemma DestroyGuardedAgrees(f: Fields, stopOk: bool)
    requires Destroy(f, stopOk).1.Destroyed?
    ensures DestroyGuarded(f, stopOk) == Destroy(f, stopOk)
  {
  }
}
