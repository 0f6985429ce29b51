/** PttForegroundService itself: its fields, updated in place by onReceive and
    onDestroy, and the logged list of registered actions. Each callback is proved
    to leave the fields exactly as the corresponding function of PttController
    says, so the lemmas there apply to the service. */
module PttService {
  import opened Wrappers
  import opened Text
  import opened Base64
  import opened Intents
  import opened PttController

  class PttForegroundService {
    var receiverRegistered: bool
    var mediaRecorder: Option<RecorderId>
    var recordersCreated: nat
    var isRecording: bool
    var currentRecordingPath: Option<string>
    /** audioFocusRequest != null */
    var hasFocusRequest: bool
    /** Focus requested and not abandoned since (whether it was granted is only logged). */
    var focusHeld: bool
    /** The wake lock's reference count; isHeld() is a positive count. */
    var wakeLockCount: nat
    /** Recorders created and not yet released. */
    ghost var live: set<RecorderId>
    /** The most recorders ever live at the same moment. */
    ghost var peakLive: nat

    ghost function State(): Fields
      reads this
    {
      Fields(receiverRegistered, mediaRecorder, recordersCreated, live, peakLive, isRecording,
             currentRecordingPath, hasFocusRequest, focusHeld, wakeLockCount)
    }

    ghost predicate Valid()
      reads this
    {
      Consistent(State())
    }

    /** onCreate: the receiver is registered and the wake lock created, not held. */
    constructor ()
      ensures State() == Initial() && Valid()
    {
      receiverRegistered := true;
      mediaRecorder := None;
      recordersCreated := 0;
      isRecording := false;
      currentRecordingPath := None;
      hasFocusRequest := false;
      focusHeld := false;
      wakeLockCount := 0;
      live := {};
      peakLive := 0;
    }

    /** mediaRecorder.release(): the field keeps its reference. */
    method ReleaseMediaRecorder()
      modifies this
      ensures State() == ReleaseRecorder(old(State()))
    {
      if mediaRecorder.Some? {
        live := live - {mediaRecorder.value};
      }
    }

    /** mediaRecorder = new MediaRecorder(). */
    method CreateMediaRecorder()
      modifies this
      ensures State() == NewRecorder(old(State()))
    {
      mediaRecorder := Some(recordersCreated);
      live := live + {recordersCreated};
      if |live| > peakLive {
        peakLive := |live|;
      }
      recordersCreated := recordersCreated + 1;
    }

    /** The catch block of a failed start. */
    method AbandonStartedRecorder()
      modifies this
      ensures State() == AbandonStart(old(State()))
    {
      isRecording := false;
      if mediaRecorder.Some? {
        ReleaseMediaRecorder();
        mediaRecorder := None;
      }
    }

    /** onReceive: forward the action as a press or release event, and start or
        stop the recording. */
    method OnReceive(intent: Intent, env: Env) returns (outcome: ReceiveOutcome)
      modifies this
      ensures State() == Receive(old(State()), intent, env).0
      ensures outcome == Receive(old(State()), intent, env).1
      ensures old(Valid()) ==> Valid()
    {
      ghost var before := State();
      var isDown := IsDown(intent.action);
      var customAction := if isDown then DownAction else UpAction;
      var extras := ForwardedExtras(intent, env.now);
      if isDown {
        OnPress(env);
        outcome := Broadcast(Event(customAction, extras));
      } else {
        outcome := OnRelease(intent, env);
      }
      if Consistent(before) {
        ReceiveKeepsConsistent(before, intent, env);
      }
    }

    /** The press branch of onReceive (lines 190-237). */
    method OnPress(env: Env)
      modifies this
      ensures State() == Press(old(State()), env)
    {
      PrepareForPress();
      StartRecorder(env);
    }

    /** Focus requested, the wake lock acquired unless held, the old recorder released (lines 190-216). */
    method PrepareForPress()
      modifies this
      ensures State() == Acquire(old(State()))
    {
      hasFocusRequest, focusHeld := true, true;
      if wakeLockCount == 0 {
        wakeLockCount := wakeLockCount + 1;
      }
      ReleaseMediaRecorder();
    }

    /** A new recorder created, given its output path and started, or the failure caught (lines 217-237). */
    method StartRecorder(env: Env)
      modifies this
      ensures State() == StartRecording(old(State()), env)
    {
      if env.start == FailedAtCreate {
        AbandonStartedRecorder();
      } else {
        CreateMediaRecorder();
        if env.start == FailedBeforeOutputFile {
          AbandonStartedRecorder();
        } else {
          currentRecordingPath := Some(ClipPath(env.cacheDir, env.now));
          if env.start == FailedAfterOutputFile {
            AbandonStartedRecorder();
          } else {
            isRecording := true;
          }
        }
      }
    }

    /** The release branch of onReceive (lines 238-301), with its early exits. */
    method OnRelease(intent: Intent, env: Env) returns (outcome: ReceiveOutcome)
      modifies this
      ensures State() == Release(old(State()), intent, env).0
      ensures outcome == Release(old(State()), intent, env).1
    {
      var extras := ForwardedExtras(intent, env.now);
      if mediaRecorder.Some? && isRecording {
        var verdict := CatchStop(env.stop);
        if verdict.Rethrow? {
          return Threw(verdict.error);
        }
        isRecording := false;
        if currentRecordingPath.None? {
          return Threw(NullPointer);
        }
        var path := currentRecordingPath.value;
        if env.clip.Some? {
          var bytes := env.clip.value;
          if |bytes| > 0 {
            if env.read.ReadFailed? {
              return ReturnedEarly;
            }
            var buffer := ReadBuffer(bytes, env.read.count);
            extras := extras + PayloadExtras(buffer, path, DurationMs(intent, env.now));
          }
        }
      }
      outcome := ReleaseAndBroadcast(Event(UpAction, extras));
    }

    /** The end of the release branch (lines 284-301): the recorder released and
        dropped, the focus request abandoned, the wake lock released, the event sent. */
    method ReleaseAndBroadcast(event: Event) returns (outcome: ReceiveOutcome)
      modifies this
      ensures State() == FinishRelease(old(State()), event, false).0
      ensures outcome == FinishRelease(old(State()), event, false).1
    {
      if mediaRecorder.Some? {
        ReleaseMediaRecorder();
        mediaRecorder := None;
      }
      if !hasFocusRequest {
        // abandonAudioFocusRequest(null)
        return Threw(IllegalArgument);
      }
      focusHeld := false;
      if wakeLockCount > 0 {
        wakeLockCount := wakeLockCount - 1;
      }
      outcome := Broadcast(event);
    }

    /** onDestroy as written: the recorder is released without a null check. */
    method OnDestroy(stopOk: bool) returns (outcome: DestroyOutcome)
      modifies this
      ensures State() == Destroy(old(State()), stopOk).0
      ensures outcome == Destroy(old(State()), stopOk).1
    {
      receiverRegistered := false;
      if hasFocusRequest {
        focusHeld := false;
      }
      if isRecording && mediaRecorder.Some? && stopOk {
        isRecording := false;
      }
      if mediaRecorder.None? {
        return DestroyThrew(NullPointer);
      }
      ReleaseMediaRecorder();
      mediaRecorder := None;
      if hasFocusRequest {
        focusHeld := false;
      }
      if wakeLockCount > 0 {
        wakeLockCount := wakeLockCount - 1;
      }
      outcome := Destroyed(currentRecordingPath);
    }
  }

  /** The actions the receiver's filter registers, in order. */
  const RegisteredActions: seq<string> := ["android.intent.action.PTT.down", "android.intent.action.PTT.up"]

  /** The logged list of registered actions: each appended with ", " to a builder,
      then the last two characters cut off; "none" when there is no iterator or
      nothing was appended. */
  method ActionList(actions: Option<seq<string>>) returns (list: string)
    ensures actions.None? || actions.value == [] ==> list == "none"
    ensures actions.Some? && actions.value != [] ==> list == Joined(actions.value, ", ")
  {
    list := "none";
    if actions.Some? {
      var items := actions.value;
      var sb := "";
      var i := 0;
      while i < |items|
        invariant 0 <= i <= |items|
        invariant sb == Terminated(items[..i], ", ")
      {
        assert items[..i + 1][..i] == items[..i];
        sb := sb + items[i] + ", ";
        i := i + 1;
      }
      assert items[..|items|] == items;
      TerminatedLength(items, ", ");
      if |sb| > 0 {
        TerminatedIsJoinedPlusSep(items, ", ");
        sb := sb[..|sb| - 2];
        list := sb;
      }
    }
  }

  /** The registered filter logs as "android.intent.action.PTT.down, android.intent.action.PTT.up". */
  lemma RegisteredActionsLogged()
    ensures Joined(RegisteredActions, ", ") == "android.intent.action.PTT.down" + ", " + "android.intent.action.PTT.up"
  {
    assert RegisteredActions[..1] == ["android.intent.action.PTT.down"];
  }

  /** The first registered action is a press: it ends in "down". */
  lemma RegisteredDownIsPress()
    ensures IsDown(RegisteredActions[0])
  {
    assert RegisteredActions[0] == "android.intent.action.PTT." + "down";
    ContainsSuffix("android.intent.action.PTT.", "down");
  }

  /** The second registered action is a release: it has no 'w', so "down" cannot occur in it. */
  lemma RegisteredUpIsRelease()
    ensures !IsDown(RegisteredActions[1])
  {
    assert RegisteredActions[1] == "android.intent.action.PTT." + "up";
    assert 'w' !in "android.intent.action.PTT.";
    MissingCharNotContained(RegisteredActions[1], "down", 2);
  }
}
