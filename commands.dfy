/**
 * The object-detection application's reaction to the web app's text
 * commands (received over the TCP client) and to the Tuya cloud's data
 * points: the detection switch and the speaker volume.
 *
 * Playing and stopping sounds, reporting data points back to the cloud,
 * the heap figure and resetting the device are calls the model does not
 * see; they appear as the reply or the effect they lead to.
 */
module Commands {
  import opened Common
  import OdMic

  /** The text commands, in the order the dispatcher tries them. */
  datatype Command =
    | AuthOk | Ping | Test | Status | AudioPlay | AudioStop | MicOn | MicOff | MicStatus
    | SwitchOn | SwitchOff | Mem | Reset | Unknown

  /** The prefix each command is recognised by, in the dispatcher's order. */
  const Dispatch: seq<(seq<byte>, Command)> := [
    (Ascii("ping"), Ping),
    (Ascii("test"), Test),
    (Ascii("status"), Status),
    (Ascii("audio play"), AudioPlay),
    (Ascii("audio stop"), AudioStop),
    (Ascii("mic on"), MicOn),
    (Ascii("mic off"), MicOff),
    (Ascii("mic status"), MicStatus),
    (Ascii("switch on"), SwitchOn),
    (Ascii("switch off"), SwitchOff),
    (Ascii("mem"), Mem),
    (Ascii("reset"), Reset)
  ]

  const AuthOkPrefix: seq<byte> := Ascii("auth:ok")

  /** The command of the first entry of `table` whose prefix `data` starts with, if any. */
  function FirstMatch(table: seq<(seq<byte>, Command)>, data: seq<byte>): (c: Option<Command>)
    ensures c.None? <==> forall k :: 0 <= k < |table| ==> !HasPrefix(data, table[k].0)
    ensures c.Some? ==>
      exists k :: 0 <= k < |table| && HasPrefix(data, table[k].0) && table[k].1 == c.value &&
        forall j :: 0 <= j < k ==> !HasPrefix(data, table[j].0)
  {
    if |table| == 0 then None
    else if HasPrefix(data, table[0].0) then Some(table[0].1)
    else
      var c := FirstMatch(table[1..], data);
      assert forall k :: 0 < k < |table| ==> table[k] == table[1..][k - 1];
      if c.Some? then
        ghost var k :| 0 <= k < |table| - 1 && HasPrefix(data, table[1..][k].0) && table[1..][k].1 == c.value &&
          forall j :: 0 <= j < k ==> !HasPrefix(data, table[1..][j].0);
        assert table[k + 1] == table[1..][k];
        c
      else c
  }

  /**
   * `tcp_message_callback`'s dispatch: the server's `auth:ok` first, then
   * the first command whose prefix the message starts with, else `Unknown`.
   */
  function Classify(data: seq<byte>): Command
  {
    if HasPrefix(data, AuthOkPrefix) then AuthOk
    else
      match FirstMatch(Dispatch, data)
      case Some(c) => c
      case None => Unknown
  }

  /** What the device answers (`tcp_client_send_str`), as the model tells the answers apart. */
  datatype Reply =
    | Pong | TestReceived
    | StatusReport(detection: bool, volume: byte, audioInit: bool, mic: bool)
    | AudioPlaying | AudioNotReady | AudioStopped
    | MicAlreadyOn | MicStarted | MicStartFailed(rt: Status)
    | MicAlreadyOff | MicStopped
    | MicStats(active: bool, bytesSent: nat, framesSent: nat)
    | SwitchedOn | SwitchedOff | Heap | Resetting
    | UnknownCommand(echo: seq<byte>)

  /** The longest part of an unknown command echoed back. */
  const EchoLimit := 50

  /** What the alert player is asked to do. */
  datatype Effect = NoEffect | AlertPlayed | AlertStopped

  /** A data point as the cloud delivers it. */
  datatype Dp = BoolDp(id: nat, b: bool) | ValueDp(id: nat, v: int) | OtherDp(id: nat)

  const SwitchDpId := 1
  const VolumeDpId := 3
  const DefaultVolume: byte := 70

  /** A volume data point. */
  predicate IsVolumeDp(d: Dp)
  {
    d.ValueDp? && d.id == VolumeDpId
  }

  /** The detection switch after one data point. */
  function SwitchStep(active: bool, d: Dp): bool
  {
    if d.BoolDp? && d.id == SwitchDpId then d.b else active
  }

  /** The volume after one data point, converted to `uint8_t`. */
  function VolumeStep(volume: byte, d: Dp): byte
  {
    if IsVolumeDp(d) then Trunc8(d.v) else volume
  }

  /** The amplifier's enable pin after one data point. */
  function SpeakerStep(enabled: bool, d: Dp): bool
  {
    if IsVolumeDp(d) then Trunc8(d.v) > 0 else enabled
  }

  /** The detection switch after the data points `dps`, starting from `active`. */
  function SwitchAfter(active: bool, dps: seq<Dp>): bool
  {
    if |dps| == 0 then active
    else SwitchStep(SwitchAfter(active, dps[..|dps| - 1]), dps[|dps| - 1])
  }

  /** The volume after the data points `dps`, starting from `volume`. */
  function VolumeAfter(volume: byte, dps: seq<Dp>): byte
  {
    if |dps| == 0 then volume
    else VolumeStep(VolumeAfter(volume, dps[..|dps| - 1]), dps[|dps| - 1])
  }

  /** Data points that never set the switch to the other value leave it where it was. */
  lemma {:induction false} SwitchUnchanged(active: bool, dps: seq<Dp>)
    requires forall k :: 0 <= k < |dps| ==> dps[k] != BoolDp(SwitchDpId, !active)
    ensures SwitchAfter(active, dps) == active
    decreases |dps|
  {
    if |dps| > 0 {
      SwitchUnchanged(active, dps[..|dps| - 1]);
    }
  }

  /** Data points without a volume data point leave the volume where it was. */
  lemma {:induction false} VolumeUnchanged(volume: byte, dps: seq<Dp>)
    requires forall k :: 0 <= k < |dps| ==> !IsVolumeDp(dps[k])
    ensures VolumeAfter(volume, dps) == volume
    decreases |dps|
  {
    if |dps| > 0 {
      VolumeUnchanged(volume, dps[..|dps| - 1]);
    }
  }

  /** Whether the speaker amplifier is enabled after the data points `dps`, starting from `enabled`. */
  function SpeakerAfter(enabled: bool, dps: seq<Dp>): (r: bool)
  {
    if |dps| == 0 then enabled
    else SpeakerStep(SpeakerAfter(enabled, dps[..|dps| - 1]), dps[|dps| - 1])
  }

  /** Once any volume data point has arrived, the amplifier is enabled exactly when the volume is not zero. */
  lemma {:induction false} SpeakerTracksVolume(enabled: bool, volume: byte, dps: seq<Dp>)
    ensures (exists k :: 0 <= k < |dps| && IsVolumeDp(dps[k])) ==>
      (SpeakerAfter(enabled, dps) <==> VolumeAfter(volume, dps) > 0)
    ensures (forall k :: 0 <= k < |dps| ==> !IsVolumeDp(dps[k])) ==> SpeakerAfter(enabled, dps) == enabled
    decreases |dps|
  {
    if |dps| > 0 {
      var init := dps[..|dps| - 1];
      SpeakerTracksVolume(enabled, volume, init);
      assert forall k :: 0 <= k < |init| ==> init[k] == dps[k];
    }
  }

  /** The first `n` effects are those of the first `n` data points of `dps`, each on what its predecessors left. */
  ghost predicate EffectsMatch(effects: seq<Effect>, active: bool, volume: byte, audio: bool, dps: seq<Dp>, n: nat)
    requires n <= |dps| && |effects| == n
  {
    forall k :: 0 <= k < n ==> effects[k] == EffectOf(SwitchAfter(active, dps[..k]), VolumeAfter(volume, dps[..k]), audio, dps[k])
  }

  /** One more matching effect keeps the effects matching. */
  lemma EffectsMatchStep(effects: seq<Effect>, active: bool, volume: byte, audio: bool, dps: seq<Dp>, n: nat, e: Effect)
    requires n < |dps| && |effects| == n
    requires EffectsMatch(effects, active, volume, audio, dps, n)
    requires e == EffectOf(SwitchAfter(active, dps[..n]), VolumeAfter(volume, dps[..n]), audio, dps[n])
    ensures EffectsMatch(effects + [e], active, volume, audio, dps, n + 1)
  {
    var es := effects + [e];
    forall k | 0 <= k < n + 1
      ensures es[k] == EffectOf(SwitchAfter(active, dps[..k]), VolumeAfter(volume, dps[..k]), audio, dps[k])
    {
      if k < n {
        assert es[k] == effects[k];
      }
    }
  }

  /** Each of the three folds takes one more data point as a step from where the earlier ones left it. */
  lemma FoldsStep(active: bool, volume: byte, enabled: bool, dps: seq<Dp>, i: nat)
    requires i < |dps|
    ensures SwitchAfter(active, dps[..i + 1]) == SwitchStep(SwitchAfter(active, dps[..i]), dps[i])
    ensures VolumeAfter(volume, dps[..i + 1]) == VolumeStep(VolumeAfter(volume, dps[..i]), dps[i])
    ensures SpeakerAfter(enabled, dps[..i + 1]) == SpeakerStep(SpeakerAfter(enabled, dps[..i]), dps[i])
  {
    assert dps[..i + 1][..i] == dps[..i];
  }

  /** One data point handled on the state the earlier ones left keeps the loop of `OnDataPoints` on track. */
  lemma DataPointStep(active0: bool, volume0: byte, enabled0: bool, audio: bool, dps: seq<Dp>, i: nat,
                      effects: seq<Effect>, active: bool, volume: byte, enabled: bool, e: Effect)
    requires i < |dps| && |effects| == i
    requires active == SwitchAfter(active0, dps[..i]) && volume == VolumeAfter(volume0, dps[..i])
    requires enabled == SpeakerAfter(enabled0, dps[..i])
    requires EffectsMatch(effects, active0, volume0, audio, dps, i)
    requires e == EffectOf(active, volume, audio, dps[i])
    ensures SwitchStep(active, dps[i]) == SwitchAfter(active0, dps[..i + 1])
    ensures VolumeStep(volume, dps[i]) == VolumeAfter(volume0, dps[..i + 1])
    ensures SpeakerStep(enabled, dps[i]) == SpeakerAfter(enabled0, dps[..i + 1])
    ensures EffectsMatch(effects + [e], active0, volume0, audio, dps, i + 1)
  {
    FoldsStep(active0, volume0, enabled0, dps, i);
    EffectsMatchStep(effects, active0, volume0, audio, dps, i, e);
  }

  /**
   * The alert effect of one data point that finds the detection switch at
   * `active` and the volume at `volume`: a switch data point plays the
   * alert when it turns detection on and stops it when it turns detection
   * off, provided the audio player is set up (and, to play, the volume is
   * not zero); anything else has no effect.
   */
  function EffectOf(active: bool, volume: byte, audio: bool, d: Dp): (r: Effect)
    ensures r == AlertPlayed <==> d == BoolDp(SwitchDpId, true) && !active && audio && volume > 0
    ensures r == AlertStopped <==> d == BoolDp(SwitchDpId, false) && active && audio
  {
    match d
    case BoolDp(id, b) =>
      if id != SwitchDpId || b == active then NoEffect
      else if b then (if audio && volume > 0 then AlertPlayed else NoEffect)
      else if audio then AlertStopped else NoEffect
    case _ => NoEffect
  }

  class App {
    /** `g_detection_active` */
    var detectionActive: bool
    /** `g_audio_initialized`, fixed once the audio player has been set up. */
    const audioInitialized: bool
    /** `g_current_volume` */
    var volume: byte
    /** The level last written to the speaker amplifier's enable pin. */
    var speakerEnabled: bool
    /** The microphone pipeline the `mic` commands drive. */
    const mic: OdMic.MicStreaming

    ghost predicate Valid()
      reads this, mic, mic.ring
    {
      mic.Valid()
    }

    constructor (audio: bool, m: OdMic.MicStreaming)
      requires m.Valid()
      ensures Valid() && audioInitialized == audio && mic == m
      ensures !detectionActive && volume == DefaultVolume
    {
      detectionActive := false;
      audioInitialized := audio;
      volume := DefaultVolume;
      speakerEnabled := false;
      mic := m;
    }

    /**
     * `play_detection_alert`: plays only with the audio player set up and a
     * non-zero volume.
     */
    method PlayAlert() returns (e: Effect)
      ensures e == (if audioInitialized && volume > 0 then AlertPlayed else NoEffect)
    {
      if !audioInitialized {
        return NoEffect;
      }
      if volume == 0 {
        return NoEffect;
      }
      e := AlertPlayed;
    }

    /** `stop_detection_alert`: only with the audio player set up. */
    method StopAlert() returns (e: Effect)
      ensures e == (if audioInitialized then AlertStopped else NoEffect)
    {
      if !audioInitialized {
        return NoEffect;
      }
      e := AlertStopped;
    }

    /**
     * One switch data point: the value is always stored, but the alert is
     * played or stopped only when it differs from the stored state.
     */
    method OnSwitch(value: bool) returns (e: Effect)
      modifies this`detectionActive
      ensures detectionActive == value
      ensures value == old(detectionActive) ==> e == NoEffect
      ensures value && !old(detectionActive) ==> e == (if audioInitialized && volume > 0 then AlertPlayed else NoEffect)
      ensures !value && old(detectionActive) ==> e == (if audioInitialized then AlertStopped else NoEffect)
    {
      var changed := value != detectionActive;
      detectionActive := value;
      e := NoEffect;
      if changed {
        if detectionActive {
          e := PlayAlert();
        } else {
          e := StopAlert();
        }
      }
    }

    /**
     * One volume data point: the value is stored converted to `uint8_t`,
     * without clamping to 0..100, and the amplifier is enabled exactly when
     * the volume is not zero.
     */
    method OnVolume(value: int)
      modifies this`volume, this`speakerEnabled
      ensures volume == Trunc8(value) && (volume - value) % 0x100 == 0
      ensures speakerEnabled <==> volume > 0
    {
      volume := Trunc8(value);
      UpdateSpeaker(volume);
    }

    /** `update_speaker_gpio` */
    method UpdateSpeaker(v: byte)
      modifies this`speakerEnabled
      ensures speakerEnabled <==> v > 0
    {
      speakerEnabled := v > 0;
    }

    /** One data point of a `TUYA_EVENT_DP_RECEIVE_OBJ` event: a switch or a volume data point is handled, any other ignored. */
    method OnDataPoint(d: Dp) returns (e: Effect)
      modifies this`detectionActive, this`volume, this`speakerEnabled
      ensures detectionActive == SwitchStep(old(detectionActive), d)
      ensures volume == VolumeStep(old(volume), d)
      ensures speakerEnabled == SpeakerStep(old(speakerEnabled), d)
      ensures e == EffectOf(old(detectionActive), old(volume), audioInitialized, d)
    {
      e := NoEffect;
      match d {
        case BoolDp(id, b) =>
          if id == SwitchDpId {
            e := OnSwitch(b);
          }
        case ValueDp(id, v) =>
          if id == VolumeDpId {
            OnVolume(v);
          }
        case OtherDp(_) =>
      }
    }

    /**
     * The data points of one `TUYA_EVENT_DP_RECEIVE_OBJ` event, in order.
     * Returns one effect per data point, each the effect of that data point
     * on the switch and volume its predecessors left.
     */
    method OnDataPoints(dps: seq<Dp>) returns (effects: seq<Effect>)
      modifies this`detectionActive, this`volume, this`speakerEnabled
      ensures detectionActive == SwitchAfter(old(detectionActive), dps)
      ensures volume == VolumeAfter(old(volume), dps)
      ensures speakerEnabled == SpeakerAfter(old(speakerEnabled), dps)
      ensures (exists k :: 0 <= k < |dps| && IsVolumeDp(dps[k])) ==> (speakerEnabled <==> volume > 0)
      ensures (forall k :: 0 <= k < |dps| ==> !IsVolumeDp(dps[k])) ==> speakerEnabled == old(speakerEnabled)
      ensures |effects| == |dps|
      ensures forall k :: 0 <= k < |dps| ==>
        effects[k] == EffectOf(SwitchAfter(old(detectionActive), dps[..k]), VolumeAfter(old(volume), dps[..k]), audioInitialized, dps[k])
    {
      ghost var active0, volume0, enabled0 := detectionActive, volume, speakerEnabled;
      effects := [];
      var i := 0;
      while i < |dps|
        invariant 0 <= i <= |dps| && |effects| == i
        decreases |dps| - i
        invariant detectionActive == SwitchAfter(active0, dps[..i])
        invariant volume == VolumeAfter(volume0, dps[..i])
        invariant speakerEnabled == SpeakerAfter(enabled0, dps[..i])
        invariant EffectsMatch(effects, active0, volume0, audioInitialized, dps, i)
      {
        ghost var active, vol, enabled := detectionActive, volume, speakerEnabled;
        var e := OnDataPoint(dps[i]);
        DataPointStep(active0, volume0, enabled0, audioInitialized, dps, i, effects, active, vol, enabled, e);
        effects := effects + [e];
        i := i + 1;
      }
      assert dps[..|dps|] == dps;
      SpeakerTracksVolume(enabled0, volume0, dps);
    }

    /** The `mic on` command: refuses to start twice. */
    method MicOnCommand(openRt: Status, threadRt: Status) returns (reply: Reply)
      requires Valid()
      modifies mic, mic.ring
      ensures Valid() && mic.ring == old(mic.ring)
      ensures old(mic.streaming) ==> reply == MicAlreadyOn && unchanged(mic)
      ensures !old(mic.streaming) ==> (reply == MicStarted <==> mic.streaming)
    {
      if mic.streaming {
        return MicAlreadyOn;
      }
      var rt := mic.Start(openRt, threadRt);
      reply := if rt == Ok then MicStarted else MicStartFailed(rt);
    }

    /** The `mic off` command. */
    method MicOffCommand() returns (reply: Reply)
      requires Valid()
      modifies mic, mic.ring
      ensures Valid() && mic.ring == old(mic.ring)
      ensures !old(mic.streaming) ==> reply == MicAlreadyOff && unchanged(mic)
      ensures old(mic.streaming) ==> reply == MicStopped && !mic.streaming
    {
      if !mic.streaming {
        return MicAlreadyOff;
      }
      var _ := mic.Stop();
      reply := MicStopped;
    }

    /**
     * `tcp_message_callback` on one message. `micOpenRt` and `micThreadRt`
     * are what starting the microphone pipeline meets. Returns the reply,
     * if any (none for the server's `auth:ok`).
     */
    method OnMessage(data: seq<byte>, micOpenRt: Status, micThreadRt: Status) returns (reply: Option<Reply>)
      requires Valid()
      modifies this`detectionActive, mic, mic.ring
      ensures Valid() && mic.ring == old(mic.ring)
      ensures Classify(data) == AuthOk <==> reply.None?
      ensures Classify(data) == AudioPlay ==>
        reply == Some(if audioInitialized && volume > 0 then AudioPlaying else AudioNotReady)
      ensures Classify(data) == MicOn && old(mic.streaming) ==> reply == Some(MicAlreadyOn) && unchanged(mic)
      ensures Classify(data) == MicOn && !old(mic.streaming) ==> reply.Some? && (reply.value == MicStarted <==> mic.streaming)
      ensures Classify(data) == MicOff && !old(mic.streaming) ==> reply == Some(MicAlreadyOff) && unchanged(mic)
      ensures Classify(data) == MicOff && old(mic.streaming) ==> reply == Some(MicStopped) && !mic.streaming
      ensures Classify(data) == SwitchOn ==> detectionActive && reply == Some(SwitchedOn)
      ensures Classify(data) == SwitchOff ==> !detectionActive && reply == Some(SwitchedOff)
      ensures Classify(data) != SwitchOn && Classify(data) != SwitchOff ==> detectionActive == old(detectionActive)
      ensures Classify(data) != MicOn && Classify(data) != MicOff ==>
        unchanged(mic) && (mic.ring != null ==> unchanged(mic.ring))
      ensures Classify(data) == Unknown ==> reply == Some(UnknownCommand(UpToNul(data[..Min(|data|, EchoLimit)])))
      ensures Classify(data) == Ping ==> reply == Some(Pong)
      ensures Classify(data) == Test ==> reply == Some(TestReceived)
      ensures Classify(data) == Status ==>
        reply == Some(StatusReport(old(detectionActive), volume, audioInitialized, old(mic.streaming)))
      ensures Classify(data) == AudioStop ==> reply == Some(AudioStopped)
      ensures Classify(data) == MicStatus ==> reply == Some(MicStats(mic.streaming, mic.bytesSent, mic.framesSent))
      ensures Classify(data) == Mem ==> reply == Some(Heap)
      ensures Classify(data) == Reset ==> reply == Some(Resetting)
    {
      reply := Handle(Classify(data), data, micOpenRt, micThreadRt);
    }

    /** The reply to the command `c`, classified from the message `data`. */
    method Handle(c: Command, data: seq<byte>, micOpenRt: Status, micThreadRt: Status) returns (reply: Option<Reply>)
      requires Valid()
      modifies this`detectionActive, mic, mic.ring
      ensures Valid() && mic.ring == old(mic.ring)
      ensures c == AuthOk <==> reply.None?
      ensures c == AudioPlay ==>
        reply == Some(if audioInitialized && volume > 0 then AudioPlaying else AudioNotReady)
      ensures c == MicOn && old(mic.streaming) ==> reply == Some(MicAlreadyOn) && unchanged(mic)
      ensures c == MicOn && !old(mic.streaming) ==> reply.Some? && (reply.value == MicStarted <==> mic.streaming)
      ensures c == MicOff && !old(mic.streaming) ==> reply == Some(MicAlreadyOff) && unchanged(mic)
      ensures c == MicOff && old(mic.streaming) ==> reply == Some(MicStopped) && !mic.streaming
      ensures c == SwitchOn ==> detectionActive && reply == Some(SwitchedOn)
      ensures c == SwitchOff ==> !detectionActive && reply == Some(SwitchedOff)
      ensures c != SwitchOn && c != SwitchOff ==> detectionActive == old(detectionActive)
      ensures c != MicOn && c != MicOff ==>
        unchanged(mic) && (mic.ring != null ==> unchanged(mic.ring))
      ensures c == Unknown ==> reply == Some(UnknownCommand(UpToNul(data[..Min(|data|, EchoLimit)])))
      ensures c == Ping ==> reply == Some(Pong)
      ensures c == Test ==> reply == Some(TestReceived)
      ensures c == Status ==>
        reply == Some(StatusReport(old(detectionActive), volume, audioInitialized, old(mic.streaming)))
      ensures c == AudioStop ==> reply == Some(AudioStopped)
      ensures c == MicStatus ==> reply == Some(MicStats(mic.streaming, mic.bytesSent, mic.framesSent))
      ensures c == Mem ==> reply == Some(Heap)
      ensures c == Reset ==> reply == Some(Resetting)
    {
      match c
      case AuthOk =>
        reply := None;
      case Ping =>
        reply := Some(Pong);
      case Test =>
        reply := Some(TestReceived);
      case Status =>
        reply := Some(StatusReport(detectionActive, volume, audioInitialized, mic.streaming));
      case AudioPlay =>
        reply := Some(if audioInitialized && volume > 0 then AudioPlaying else AudioNotReady);
      case AudioStop =>
        reply := Some(AudioStopped);
      case MicOn =>
        var r := MicOnCommand(micOpenRt, micThreadRt);
        reply := Some(r);
      case MicOff =>
        var r := MicOffCommand();
        reply := Some(r);
      case MicStatus =>
        var stats := mic.Stats();
        reply := Some(MicStats(mic.streaming, stats.0, stats.1));
      case SwitchOn =>
        detectionActive := true;
        reply := Some(SwitchedOn);
      case SwitchOff =>
        detectionActive := false;
        reply := Some(SwitchedOff);
      case Mem =>
        reply := Some(Heap);
      case Reset =>
        reply := Some(Resetting);
      case Unknown =>
        reply := Some(UnknownCommand(UpToNul(data[..Min(|data|, EchoLimit)])));
    }
  }
}
