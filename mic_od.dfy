/**
 * The object-detection board's microphone pipeline: the audio driver's
 * callback appends PCM to an 8000-byte ring that refuses bytes it has no
 * room for, and a streaming task, every 40 ms, takes up to two 320-byte
 * frames from the ring and sends them over the TCP client prefixed with
 * `audio:`.
 *
 * One tick of the task is `Tick`; whether the TCP client is connected and
 * what its send returns are parameters.
 */
module OdMic {
  import opened Common
  import opened RingFifo

  /** `MIC_FRAME_SIZE`: 20 ms of 8 kHz 16-bit mono. */
  const FrameSize := 320
  /** `MIC_RINGBUF_SIZE`: 25 frames, 500 ms. */
  const RingSize := 8000
  /** The most one tick sends: two frames. */
  const MaxRead := 640
  /** `AUDIO_MSG_PREFIX` */
  const AudioPrefix: seq<byte> := Ascii("audio:")
  /** The size of the task's `send_buf`: prefix, two frames and four bytes of padding. */
  const SendBufSize := 6 + MaxRead + 4

  /** The number of bytes one tick takes from a ring holding `used` bytes. */
  function TickRead(used: nat): (n: nat)
    ensures used < FrameSize ==> n == 0
    ensures used >= FrameSize ==> FrameSize <= n <= MaxRead && n <= used
    ensures used >= FrameSize && used <= MaxRead ==> n == used
  {
    if used < FrameSize then 0 else Min(used, MaxRead)
  }

  class MicStreaming {
    var initialized: bool
    var streaming: bool
    /** `g_mic_ctx.ringbuf`; null until created. */
    var ring: Fifo?
    var bytesSent: nat
    var framesSent: nat

    ghost predicate Valid()
      reads this, ring
    {
      (ring != null ==> ring.Valid() && ring.capacity == RingSize && ring.policy == Overflow.Stop) &&
      (initialized ==> ring != null) &&
      (streaming ==> initialized)
    }

    /** The zeroed context before `mic_streaming_init`. */
    constructor ()
      ensures Valid() && !initialized && !streaming && ring == null
      ensures bytesSent == 0 && framesSent == 0
    {
      initialized, streaming, ring := false, false, null;
      bytesSent, framesSent := 0, 0;
    }

    /**
     * `mic_streaming_init`: a no-op once initialised; otherwise clears the
     * context, then needs the audio device (`findRt`) and a stop-policy ring
     * (`createRt`).
     */
    method Init(findRt: Status, createRt: Status) returns (rt: Status)
      requires Valid()
      modifies this
      ensures Valid()
      ensures old(initialized) ==> rt == Ok && unchanged(this)
      ensures !old(initialized) ==>
        !streaming && bytesSent == 0 && framesSent == 0 &&
        rt == (if findRt != Ok then findRt else createRt) &&
        (rt == Ok <==> initialized) &&
        (rt == Ok ==> fresh(ring) && ring.contents == []) &&
        (rt != Ok ==> ring == null)
    {
      if initialized {
        return Ok;
      }
      streaming, ring, bytesSent, framesSent := false, null, 0, 0;
      if findRt != Ok {
        return findRt;
      }
      if createRt != Ok {
        return createRt;
      }
      ring := new Fifo(RingSize, Overflow.Stop);
      initialized := true;
      rt := Ok;
    }

    /**
     * `mic_streaming_start`. The ring is emptied before the audio device is
     * opened (`openRt`), so a failed open still leaves it empty; `threadRt`
     * is the result of creating the streaming task.
     */
    method Start(openRt: Status, threadRt: Status) returns (rt: Status)
      requires Valid()
      modifies this, ring
      ensures Valid() && ring == old(ring) && initialized == old(initialized)
      ensures !old(initialized) ==> rt == InvalidParm && unchanged(this) && (ring != null ==> unchanged(ring))
      ensures old(initialized) && old(streaming) ==> rt == Ok && unchanged(this) && unchanged(ring)
      ensures old(initialized) && !old(streaming) ==> ring.contents == []
      ensures old(initialized) && !old(streaming) && openRt != Ok ==>
        rt == openRt && !streaming && bytesSent == old(bytesSent) && framesSent == old(framesSent)
      ensures old(initialized) && !old(streaming) && openRt == Ok ==>
        bytesSent == 0 && framesSent == 0 && rt == threadRt && streaming == (threadRt == Ok)
    {
      if !initialized {
        return InvalidParm;
      }
      if streaming {
        return Ok;
      }
      ring.Reset();
      if openRt != Ok {
        return openRt;
      }
      bytesSent, framesSent := 0, 0;
      streaming := true;
      if threadRt != Ok {
        streaming := false;
        return threadRt;
      }
      rt := Ok;
    }

    /** `mic_streaming_stop`: a no-op when not streaming; otherwise stops and empties the ring, keeping the statistics. */
    method Stop() returns (rt: Status)
      requires Valid()
      modifies this`streaming, ring
      ensures Valid() && rt == Ok
      ensures bytesSent == old(bytesSent) && framesSent == old(framesSent)
      ensures !old(streaming) ==> !streaming && (ring != null ==> unchanged(ring))
      ensures old(streaming) ==> !streaming && ring.contents == []
    {
      if !streaming {
        return Ok;
      }
      streaming := false;
      ring.Reset();
      rt := Ok;
    }

    /**
     * `mic_audio_frame_callback`: ignored unless streaming with a ring and
     * given PCM; otherwise the bytes that fit are appended to the ring and
     * the rest are lost.
     */
    method OnFrame(isPcm: bool, data: seq<byte>)
      requires Valid()
      modifies ring
      ensures Valid()
      ensures !old(streaming) || ring == null || !isPcm ==> ring != null ==> unchanged(ring)
      ensures old(streaming) && ring != null && isPcm ==>
        ring.contents == old(ring.contents) + data[..Min(|data|, RingSize - |old(ring.contents)|)]
    {
      if !streaming || ring == null {
        return;
      }
      if !isPcm {
        return;
      }
      var _ := ring.Write(data);
    }

    /**
     * One tick of `mic_streaming_task`: with at least one frame buffered, up
     * to two frames are taken from the ring. They are offered to the TCP
     * client, as `audio:` followed by the bytes, only when it is connected;
     * otherwise they are discarded. `sendRt` is what the send returns. The
     * statistics advance only on a successful send. Returns the message
     * offered, if any.
     */
    method Tick(connected: bool, sendRt: Status) returns (msg: Option<seq<byte>>)
      requires Valid() && ring != null
      modifies ring, this`bytesSent, this`framesSent
      ensures Valid()
      ensures
        var before := old(ring.contents);
        var n := TickRead(|before|);
        && ring.contents == before[n..]
        && (msg.Some? <==> n > 0 && connected)
        && (msg.Some? ==> msg.value == AudioPrefix + before[..n] && |msg.value| <= SendBufSize)
        && (msg.Some? && sendRt == Ok ==> bytesSent == old(bytesSent) + n && framesSent == old(framesSent) + 1)
        && (msg.None? || sendRt != Ok ==> bytesSent == old(bytesSent) && framesSent == old(framesSent))
    {
      msg := None;
      var dataLen := ring.Used();
      if dataLen >= FrameSize {
        if dataLen > MaxRead {
          dataLen := MaxRead;
        }
        // the read returns `dataLen` bytes, at least one frame
        var data := ring.Read(dataLen);
        if connected {
          msg := Some(AudioPrefix + data);
          if sendRt == Ok {
            bytesSent := bytesSent + |data|;
            framesSent := framesSent + 1;
          }
        }
      }
    }

    /** `mic_streaming_get_stats` */
    function Stats(): (r: (nat, nat))
      reads this
      ensures r.0 == bytesSent && r.1 == framesSent
    {
      (bytesSent, framesSent)
    }
  }
}
