/**
 * The devkit's microphone pipeline: the audio driver's callback appends PCM
 * to a 64000-byte ring that overwrites its oldest bytes, and a streaming task
 * polls the ring every 10 ms, trims it when more than 6400 bytes (200 ms)
 * have piled up, sends whole 640-byte frames over UDP and counts empty polls
 * for a stall watchdog. A keepalive task pings the server when no audio has
 * been sent for 20 s.
 *
 * Threads become methods: one pass of the streaming loop is `StreamStep`,
 * the driver's callback is `OnFrame`. The UDP sender, the clock and thread
 * creation are parameters.
 */
module DevkitMic {
  import opened Common
  import opened RingFifo

  const FrameSize := 640
  const RingSize := 64000
  /** `MAX_BUFFER_BYTES`: ten frames. */
  const MaxBufferBytes := 6400
  /** `MIC_WATCHDOG_EMPTY_COUNT`: 5000 ms of polls every 10 ms. */
  const WatchdogEmptyCount := 500
  const KeepaliveThresholdMs := 20000

  /**
   * The bytes left in the ring after the bloat trim of one pass: frames are
   * discarded while more than one frame's worth remains, so between 1 and
   * 640 bytes are left, not necessarily a whole frame.
   */
  function Trimmed(used: nat): (left: nat)
    ensures used > MaxBufferBytes ==> 0 < left <= FrameSize && (used - left) % FrameSize == 0
    ensures used <= MaxBufferBytes ==> left == used
  {
    if used > MaxBufferBytes then used - FrameSize * ((used - 1) / FrameSize) else used
  }

  lemma TrimmedUnique(used: nat, k: nat)
    requires used > MaxBufferBytes
    requires 0 < used - FrameSize * k <= FrameSize
    ensures Trimmed(used) == used - FrameSize * k
  {
    assert (used - 1) / FrameSize == k;
  }

  /** The trim can leave less than a frame: 6401 buffered bytes are trimmed to 1. */
  lemma TrimLeavesPartialFrame()
    ensures Trimmed(6401) == 1
    ensures Trimmed(7040) == FrameSize
  {
    TrimmedUnique(6401, 10);
    TrimmedUnique(7040, 10);
  }

  lemma DivBetween(x: nat, n: nat)
    requires FrameSize * n <= x < FrameSize * (n + 1)
    ensures x / FrameSize == n
  {}

  lemma DivAtLeast(x: nat, n: nat)
    requires FrameSize * n <= x
    ensures x / FrameSize >= n
  {}

  /** Frames one pass sends when `avail` bytes are buffered and the transport accepts the first `accepted` sends. */
  function Sends(avail: nat, ready: bool, accepted: nat): nat
  {
    if ready then Min(avail / FrameSize, accepted) else 0
  }

  /** Frames one pass takes from the ring: the ones sent, plus the one lost to a failed send. */
  function Attempts(avail: nat, ready: bool, accepted: nat): (a: nat)
    ensures a == Sends(avail, ready, accepted) || a == Sends(avail, ready, accepted) + 1
    ensures a * FrameSize <= avail
  {
    if ready then Min(avail / FrameSize, accepted + 1) else 0
  }

  /**
   * `udp_keepalive_task`'s decision: ping when more than 20 s have passed
   * since the last send, the difference taken in wrapping 32-bit milliseconds.
   */
  function ShouldPing(now: uint32, lastSend: uint32): (ping: bool)
    ensures now >= lastSend ==> (ping <==> now - lastSend > KeepaliveThresholdMs)
    ensures now < lastSend ==> (ping <==> now + 0x1_0000_0000 - lastSend > KeepaliveThresholdMs)
  {
    Trunc32(now - lastSend) > KeepaliveThresholdMs
  }

  class MicStreaming {
    var initialized: bool
    var streaming: bool
    /** `g_mic_ctx.ringbuf`; null until created. */
    var ring: Fifo?
    /** Whether the UDP sender is open (`udp_audio_init` succeeded and no `udp_audio_close` since). */
    var udpOpen: bool
    var bytesCaptured: nat
    var framesSent: nat
    var droppedFrames: nat
    var lastSendTime: uint32
    var watchdogRestarts: nat
    /** Locals of the streaming task, which live as long as the task. */
    var emptyCount: nat
    var dropCount: nat

    ghost predicate Valid()
      reads this, ring
    {
      (ring != null ==> ring.Valid() && ring.capacity == RingSize && ring.policy == Coverage) &&
      (initialized ==> ring != null) &&
      (streaming ==> initialized)
    }

    /** The zeroed context before `mic_streaming_init`. */
    constructor ()
      ensures Valid() && !initialized && !streaming && ring == null && !udpOpen
    {
      initialized, streaming, ring, udpOpen := false, false, null, false;
      bytesCaptured, framesSent, droppedFrames, lastSendTime, watchdogRestarts := 0, 0, 0, 0, 0;
      emptyCount, dropCount := 0, 0;
    }

    /**
     * `mic_streaming_init`: a no-op once initialised; otherwise clears the
     * context, then needs the audio device (`findRt`) and a coverage ring
     * (`createRt`).
     */
    method Init(findRt: Status, createRt: Status) returns (rt: Status)
      requires Valid()
      modifies this
      ensures Valid()
      ensures udpOpen == old(udpOpen) && emptyCount == old(emptyCount) && dropCount == old(dropCount)
      ensures old(initialized) ==> rt == Ok && unchanged(this)
      ensures !old(initialized) ==>
        !streaming && bytesCaptured == 0 && framesSent == 0 && droppedFrames == 0 &&
        lastSendTime == 0 && watchdogRestarts == 0 &&
        rt == (if findRt != Ok then findRt else createRt) &&
        (rt == Ok <==> initialized) &&
        (rt == Ok ==> fresh(ring) && ring.contents == []) &&
        (rt != Ok ==> ring == null)
    {
      if initialized {
        return Ok;
      }
      streaming, ring := false, null;
      bytesCaptured, framesSent, droppedFrames, lastSendTime, watchdogRestarts := 0, 0, 0, 0, 0;
      if findRt != Ok {
        return findRt;
      }
      if createRt != Ok {
        return createRt;
      }
      ring := new Fifo(RingSize, Coverage);
      initialized := true;
      rt := Ok;
    }

    /**
     * `mic_streaming_start`. `udpRt` is the result of opening the UDP sender,
     * `now` the clock, `threadRt` the result of creating the streaming task.
     */
    method Start(udpRt: Status, now: uint32, threadRt: Status) returns (rt: Status)
      requires Valid()
      modifies this, ring
      ensures Valid() && ring == old(ring) && initialized == old(initialized)
      ensures !old(initialized) ==> rt == InvalidParm && unchanged(this) && (ring != null ==> unchanged(ring))
      ensures old(initialized) && old(streaming) ==> rt == Ok && unchanged(this) && unchanged(ring)
      ensures old(initialized) && !old(streaming) && udpRt != Ok ==>
        rt == udpRt && unchanged(this) && unchanged(ring)
      ensures old(initialized) && !old(streaming) && udpRt == Ok ==>
        ring.contents == [] &&
        bytesCaptured == 0 && framesSent == 0 && droppedFrames == 0 && watchdogRestarts == 0 &&
        lastSendTime == now &&
        rt == threadRt && streaming == (threadRt == Ok) && udpOpen == (threadRt == Ok) &&
        (threadRt == Ok ==> emptyCount == 0 && dropCount == 0)
    {
      if !initialized {
        return InvalidParm;
      }
      if streaming {
        return Ok;
      }
      if udpRt != Ok {
        return udpRt;
      }
      udpOpen := true;
      ring.Reset();
      bytesCaptured, framesSent, droppedFrames, watchdogRestarts := 0, 0, 0, 0;
      lastSendTime := now;
      streaming := true;
      if threadRt != Ok {
        streaming := false;
        udpOpen := false;
        return threadRt;
      }
      // the new task starts with its counters at zero
      emptyCount, dropCount := 0, 0;
      rt := Ok;
    }

    /** `mic_streaming_stop`: a no-op when not streaming; otherwise stops, closes UDP and empties the ring, keeping the statistics. */
    method Stop() returns (rt: Status)
      requires Valid()
      modifies this`streaming, this`udpOpen, ring
      ensures Valid() && rt == Ok
      ensures !old(streaming) ==> streaming == old(streaming) && udpOpen == old(udpOpen) && (ring != null ==> unchanged(ring))
      ensures old(streaming) ==> !streaming && !udpOpen && ring.contents == []
    {
      if !streaming {
        return Ok;
      }
      streaming := false;
      udpOpen := false;
      ring.Reset();
      rt := Ok;
    }

    /**
     * `mic_audio_frame_callback`: ignored unless streaming with a ring and
     * given PCM; otherwise the bytes are counted and written to the ring. The
     * dropped-frame counter counts writes that the ring accepts only in part;
     * a coverage ring accepts every byte, so that branch is never taken and
     * the counter stays as it is.
     */
    method OnFrame(isPcm: bool, data: seq<byte>)
      requires Valid()
      modifies this`bytesCaptured, ring
      ensures Valid()
      ensures !old(streaming) || ring == null || !isPcm ==>
        bytesCaptured == old(bytesCaptured) && (ring != null ==> unchanged(ring))
      ensures old(streaming) && ring != null && isPcm ==>
        bytesCaptured == old(bytesCaptured) + |data| &&
        ring.contents == Last(old(ring.contents) + data, Min(|old(ring.contents)| + |data|, RingSize))
      ensures droppedFrames == old(droppedFrames)
    {
      if !streaming || ring == null {
        return;
      }
      if !isPcm {
        return;
      }
      bytesCaptured := bytesCaptured + |data|;
      var written := ring.Write(data);
      assert written == |data|;
    }

    /**
     * One pass of `mic_streaming_task`. `ready` is `udp_audio_is_ready()`,
     * the transport accepts the first `accepted` frames of this pass and
     * fails the next, and `now` is the clock. Returns the frames sent and
     * whether the task exits (no ring).
     */
    method StreamStep(ready: bool, accepted: nat, now: uint32) returns (sent: seq<seq<byte>>, exit: bool)
      requires Valid() && streaming
      modifies this`framesSent, this`lastSendTime, this`watchdogRestarts, this`emptyCount, this`dropCount, ring
      ensures Valid()
      ensures exit <==> ring == null
      ensures ring == null ==>
        && sent == []
        && framesSent == old(framesSent) && lastSendTime == old(lastSendTime)
        && watchdogRestarts == old(watchdogRestarts) && emptyCount == old(emptyCount) && dropCount == old(dropCount)
      ensures ring != null ==>
        var before := old(ring.contents);
        var avail := Trimmed(|before|);
        var trimmed := (|before| - avail) / FrameSize;
        var s := Sends(avail, ready, accepted);
        var a := Attempts(avail, ready, accepted);
        var left := avail - FrameSize * s;
        dropCount == old(dropCount) + trimmed &&
        ring.contents == before[FrameSize * (trimmed + a)..] &&
        |sent| == s &&
        (forall i :: 0 <= i < s ==>
          sent[i] == before[FrameSize * (trimmed + i)..FrameSize * (trimmed + i + 1)]) &&
        framesSent == old(framesSent) + s &&
        lastSendTime == (if s > 0 then now else old(lastSendTime)) &&
        emptyCount == (if a > 0 then 0 else old(emptyCount)) + (if left < FrameSize then 1 else 0) &&
        watchdogRestarts == old(watchdogRestarts) + (if left < FrameSize && emptyCount == WatchdogEmptyCount then 1 else 0)
    {
      sent := [];
      if ring == null {
        return [], true;
      }
      exit := false;
      var dataLen := TrimRing();
      var left;
      sent, left := SendFrames(ready, accepted, now);
      if left < FrameSize {
        emptyCount := emptyCount + 1;
        if emptyCount == WatchdogEmptyCount {
          watchdogRestarts := watchdogRestarts + 1;
        }
      }
    }

    /**
     * The bloat trim of one pass: when more than ten frames are buffered,
     * frames are read and discarded while more than one frame's worth
     * remains. Returns the bytes left.
     */
    method TrimRing() returns (dataLen: nat)
      requires Valid() && ring != null
      modifies ring, this`dropCount
      ensures Valid()
      ensures dataLen == Trimmed(|old(ring.contents)|) == |ring.contents|
      ensures (|old(ring.contents)| - dataLen) % FrameSize == 0
      ensures dropCount == old(dropCount) + (|old(ring.contents)| - dataLen) / FrameSize
      ensures ring.contents == old(ring.contents)[|old(ring.contents)| - dataLen..]
    {
      ghost var before := ring.contents;
      dataLen := ring.Used();
      ghost var k := 0;
      if dataLen > MaxBufferBytes {
        while ring.Used() > FrameSize
          invariant ring.Valid()
          invariant FrameSize * k <= |before| && ring.contents == before[FrameSize * k..]
          invariant |ring.contents| >= 1
          invariant dropCount == old(dropCount) + k
          decreases |ring.contents|
          modifies ring, this`dropCount
        {
          var _ := ring.Read(FrameSize);
          dropCount := dropCount + 1;
          k := k + 1;
        }
        dataLen := ring.Used();
        TrimmedUnique(|before|, k);
        assert (|before| - dataLen) / FrameSize == k;
      }
    }

    /**
     * The send loop of one pass: while a whole frame is buffered and the
     * sender is ready, a frame is read and sent; the first failed send ends
     * the loop, and the frame it carried is lost. Returns the frames sent
     * and the byte count the watchdog then looks at.
     */
    method SendFrames(ready: bool, accepted: nat, now: uint32) returns (sent: seq<seq<byte>>, dataLen: nat)
      requires Valid() && ring != null
      modifies ring, this`framesSent, this`lastSendTime, this`emptyCount
      ensures Valid()
      ensures
        var base := old(ring.contents);
        var s := Sends(|base|, ready, accepted);
        var a := Attempts(|base|, ready, accepted);
        && |sent| == s
        && (forall i :: 0 <= i < s ==> sent[i] == base[FrameSize * i..FrameSize * (i + 1)])
        && ring.contents == base[FrameSize * a..]
        && dataLen == |base| - FrameSize * s
        && framesSent == old(framesSent) + s
        && lastSendTime == (if s > 0 then now else old(lastSendTime))
        && emptyCount == (if a > 0 then 0 else old(emptyCount))
    {
      ghost var base := ring.contents;
      ghost var avail := |base|;
      dataLen := ring.Used();
      sent := [];
      ghost var failed := false;
      while dataLen >= FrameSize && ready
        invariant ring.Valid()
        invariant |sent| <= accepted && FrameSize * |sent| <= avail
        invariant ring.contents == base[FrameSize * |sent|..] && dataLen == avail - FrameSize * |sent|
        invariant forall i :: 0 <= i < |sent| ==> sent[i] == base[FrameSize * i..FrameSize * (i + 1)]
        invariant framesSent == old(framesSent) + |sent|
        invariant lastSendTime == (if |sent| > 0 then now else old(lastSendTime))
        invariant emptyCount == (if |sent| > 0 then 0 else old(emptyCount))
        invariant !ready ==> |sent| == 0
        modifies ring, this`framesSent, this`lastSendTime, this`emptyCount
      {
        emptyCount := 0;
        // a whole frame is buffered, so the read returns one
        var frame := ring.Read(FrameSize);
        if |sent| == accepted {
          failed := true;
          break;
        }
        framesSent := framesSent + 1;
        lastSendTime := now;
        sent := sent + [frame];
        dataLen := ring.Used();
      }
      if failed {
        DivAtLeast(avail, |sent| + 1);
        assert ring.contents == base[FrameSize * (|sent| + 1)..];
      } else if ready {
        DivBetween(avail, |sent|);
      }
    }

    /** `mic_streaming_get_stats`: the first figure, reported as bytes sent, is the number of bytes captured. */
    function Stats(): (r: (nat, nat))
      reads this
      ensures r.0 == bytesCaptured && r.1 == framesSent
    {
      (bytesCaptured, framesSent)
    }
  }
}
