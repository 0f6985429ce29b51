/** The intents the receiver consumes and the events it broadcasts: actions,
    extras, Java long arithmetic, and the clip payload. */
module Intents {
  import opened Wrappers
  import opened Text
  import opened Base64

  const LongMin: int := -0x8000_0000_0000_0000
  const LongMax: int := 0x7fff_ffff_ffff_ffff

  /** A Java long. */
  type Long = x: int | LongMin <= x <= LongMax

  /** Java's two's-complement wrap-around of a long result. */
  function WrapLong(x: int): (r: Long)
    ensures (r - x) % 0x1_0000_0000_0000_0000 == 0
    ensures LongMin <= x <= LongMax ==> r == x
  {
    (x - LongMin) % 0x1_0000_0000_0000_0000 + LongMin
  }

  /** A value stored in an intent's extras bundle, by its Java type. */
  datatype Extra = LongValue(n: Long) | StringValue(s: string) | OtherValue

  /** An incoming intent: its action, and its extras bundle (null when it has none). */
  datatype Intent = Intent(action: string, extras: Option<map<string, Extra>>)

  /** An outgoing broadcast: its action and its extras. */
  datatype Event = Event(action: string, extras: map<string, Extra>)

  const DownAction: string := "com.itmikes.ptt.event.down"
  const UpAction: string := "com.itmikes.ptt.event.up"
  const MimeType: string := "audio/aac"

  /** A press is any action whose text contains "down". */
  function IsDown(action: string): bool
  {
    Contains(action, "down")
  }

  /** The press test, stated by occurrence, both ways. */
  lemma IsDownIff(action: string)
    ensures IsDown(action) <==> exists i :: OccursAt(action, "down", i)
  {
    ContainsIff(action, "down");
  }

  /** The action the receiver forwards under. */
  function ForwardedAction(action: string): string
  {
    if IsDown(action) then DownAction else UpAction
  }

  /** The extras of the forwarded event before any clip: the original action and
      the receive time, then every extra of the incoming intent copied over them. */
  function ForwardedExtras(intent: Intent, now: Long): map<string, Extra>
  {
    var own := map["originalAction" := StringValue(intent.action), "timestamp" := LongValue(now)];
    if intent.extras.Some? then own + intent.extras.value else own
  }

  /** Every incoming extra is forwarded unchanged; originalAction and timestamp are
      the receiver's own unless the incoming intent carried those keys. */
  lemma ForwardedExtrasContent(intent: Intent, now: Long)
    ensures var m := ForwardedExtras(intent, now);
      && "originalAction" in m && "timestamp" in m
      && (intent.extras.Some? ==> forall k :: k in intent.extras.value ==> k in m && m[k] == intent.extras.value[k])
      && (intent.extras.None? || "originalAction" !in intent.extras.value ==> m["originalAction"] == StringValue(intent.action))
      && (intent.extras.None? || "timestamp" !in intent.extras.value ==> m["timestamp"] == LongValue(now))
      && (forall k :: k in m ==> k in {"originalAction", "timestamp"} || (intent.extras.Some? && k in intent.extras.value))
  {
  }

  /** Intent.getLongExtra(key, default): the value when the bundle holds a long
      under that key, otherwise the default. */
  function LongExtra(intent: Intent, key: string, default: Long): Long
  {
    if intent.extras.Some? && key in intent.extras.value && intent.extras.value[key].LongValue? then
      intent.extras.value[key].n
    else default
  }

  /** The clip duration: the receive time minus the incoming intent's own
      "timestamp" extra (0 when absent), in long arithmetic. */
  function DurationMs(intent: Intent, now: Long): Long
  {
    WrapLong(now - LongExtra(intent, "timestamp", 0))
  }

  /** Duration of an intent that carries no timestamp of its own is the clock reading itself. */
  lemma DurationWithoutTimestamp(intent: Intent, now: Long)
    requires intent.extras.None? || "timestamp" !in intent.extras.value
    ensures DurationMs(intent, now) == now
  {
  }

  /** A "timestamp" extra that is not a long is ignored, as getLongExtra ignores it. */
  lemma DurationWithNonLongTimestamp(intent: Intent, now: Long)
    requires intent.extras.Some? && "timestamp" in intent.extras.value
    requires !intent.extras.value["timestamp"].LongValue?
    ensures DurationMs(intent, now) == now
  {
  }

  /** Duration of an intent stamped at `t` no later than `now` is the plain difference. */
  lemma DurationWithTimestamp(intent: Intent, now: Long, t: Long)
    requires intent.extras.Some? && "timestamp" in intent.extras.value
    requires intent.extras.value["timestamp"] == LongValue(t)
    requires 0 <= t <= now
    ensures DurationMs(intent, now) == now - t
  {
  }

  /** The four extras attached for a non-empty clip. */
  function PayloadExtras(buffer: seq<byte>, path: string, durationMs: Long): (m: map<string, Extra>)
    ensures m.Keys == {"audioBase64", "audioPath", "mimeType", "durationMs"}
    ensures m["audioBase64"].StringValue? && Decode(m["audioBase64"].s) == Some(buffer)
    ensures m["audioPath"] == StringValue(path)
    ensures m["mimeType"] == StringValue(MimeType)
    ensures m["durationMs"] == LongValue(durationMs)
  {
    DecodeEncode(buffer);
    map["audioBase64" := StringValue(Encode(buffer)), "audioPath" := StringValue(path),
        "mimeType" := StringValue(MimeType), "durationMs" := LongValue(durationMs)]
  }

  /** Where a clip is written: <cacheDir>/ptt_<now>.aac. */
  function ClipPath(cacheDir: string, now: Long): string
  {
    cacheDir + "/ptt_" + LongToDecimal(now) + ".aac"
  }

  /** Clips started at different milliseconds get different paths. */
  lemma ClipPathInjective(cacheDir: string, t1: Long, t2: Long)
    requires ClipPath(cacheDir, t1) == ClipPath(cacheDir, t2)
    ensures t1 == t2
  {
    var p1, p2 := ClipPath(cacheDir, t1), ClipPath(cacheDir, t2);
    var pre := cacheDir + "/ptt_";
    var d1, d2 := LongToDecimal(t1), LongToDecimal(t2);
    assert p1 == pre + d1 + ".aac";
    assert p2 == pre + d2 + ".aac";
    assert |d1| == |d2|;
    assert d1 == p1[|pre|..|pre| + |d1|];
    assert d2 == p2[|pre|..|pre| + |d2|];
    LongToDecimalInjective(t1, t2);
  }
}
