/**
 * The devkit's speaker stream: UDP datagrams from the server are written into
 * a 96000-byte jitter buffer (a byte ring that overwrites its oldest bytes),
 * and a playback task waits for a 16000-byte prefill, then hands one 640-byte
 * chunk per step to the audio driver or counts an underrun.
 *
 * The receiver and playback tasks run concurrently under a mutex; here every
 * buffer operation is one atomic method and each task is modelled by one
 * iteration of its loop.
 */
module Speaker {
  import opened Common

  const JitterSize := 96000
  const PrefillThreshold := 16000
  const ChunkSize := 640
  /** Size of the receive buffer, so the largest datagram `recvfrom` returns. */
  const PcmBufSize := 1400
  /** `g_vps_host` holds 63 characters and the terminator. */
  const HostCapacity := 63

  /** The ring position `k` places after `base`: `(base + k) % JITTER_BUFFER_SIZE`. */
  function Slot(base: nat, k: nat): (p: nat)
    requires base < JitterSize && k <= JitterSize
    ensures p < JitterSize && p == (base + k) % JitterSize
  {
    if base + k < JitterSize then base + k else base + k - JitterSize
  }

  class SpeakerStream {
    /** `g_jitter_buffer` */
    const jitter: array<byte>
    /** Write position, read position and number of buffered bytes. */
    var head: nat
    var tail: nat
    var count: nat
    var playbackStarted: bool
    /** `g_speaker_active` */
    var active: bool
    /** `g_udp_socket >= 0` */
    var socketOpen: bool
    /** `g_vps_host` */
    var vpsHost: seq<byte>
    var packetsReceived: nat
    var bytesReceived: nat
    var playErrors: nat
    var underruns: nat
    var overruns: nat

    ghost predicate Valid()
      reads this
    {
      jitter.Length == JitterSize &&
      head < JitterSize && tail < JitterSize && count <= JitterSize &&
      head == Slot(tail, count)
    }

    /** The buffered bytes, oldest first. */
    ghost function Contents(): (c: seq<byte>)
      requires Valid()
      reads this, jitter
      ensures |c| == count
    {
      seq(count, k requires 0 <= k < count && tail < JitterSize && count <= JitterSize && jitter.Length == JitterSize
                   reads this, jitter
                   => jitter[Slot(tail, k)])
    }

    /** The module state before `speaker_streaming_init` first runs. */
    constructor ()
      ensures Valid() && Contents() == []
      ensures !active && !socketOpen && !playbackStarted && vpsHost == []
      ensures packetsReceived == bytesReceived == playErrors == underruns == overruns == 0
    {
      jitter := new byte[JitterSize](_ => 0);
      head, tail, count := 0, 0, 0;
      playbackStarted, active, socketOpen := false, false, false;
      vpsHost := [];
      packetsReceived, bytesReceived, playErrors, underruns, overruns := 0, 0, 0, 0, 0;
    }

    /** `jitter_buffer_level` */
    function Level(): (n: nat)
      requires Valid()
      reads this
      ensures n <= JitterSize
    {
      count
    }

    /**
     * `jitter_buffer_write`. When the bytes do not fit, the oldest ones are
     * dropped first, so the buffer ends up holding the newest
     * `min(count + len, 96000)` bytes of the old contents followed by the data.
     */
    method Write(data: array?<byte>, len: nat)
      requires Valid()
      requires data != null ==> len <= data.Length && data != jitter
      requires len <= JitterSize
      modifies this`head, this`tail, this`count, this`overruns, jitter
      ensures Valid()
      ensures len == 0 || data == null ==>
        head == old(head) && tail == old(tail) && count == old(count) &&
        overruns == old(overruns) && jitter[..] == old(jitter[..])
      ensures len > 0 && data != null ==>
        count == Min(old(count) + len, JitterSize) &&
        Contents() == Last(old(Contents()) + data[..len], count) &&
        overruns == old(overruns) + (if old(count) + len > JitterSize then 1 else 0)
    {
      if len == 0 || data == null {
        return;
      }
      ghost var before := Contents();
      ghost var dropped := 0;
      if count + len > JitterSize {
        var overflow := count + len - JitterSize;
        tail := (tail + overflow) % JitterSize;
        count := count - overflow;
        overruns := overruns + 1;
        dropped := overflow;
        SlotsAfterDrop(before, old(tail), overflow);
      }
      ghost var kept := Contents();
      assert kept == before[dropped..];
      Append(data, len);
      assert before + data[..len] == before[..dropped] + (kept + data[..len]);
    }

    /** The copy loop of `jitter_buffer_write`, once room has been made for `len` bytes. */
    method Append(data: array<byte>, len: nat)
      requires Valid()
      requires data != jitter && len <= data.Length && count + len <= JitterSize
      modifies this`head, this`count, jitter
      ensures Valid()
      ensures count == old(count) + len && tail == old(tail)
      ensures Contents() == old(Contents()) + data[..len]
    {
      ghost var before := Contents();
      var i := 0;
      while i < len
        invariant 0 <= i <= len
        invariant head == Slot(tail, count + i)
        invariant forall k :: 0 <= k < count ==> jitter[Slot(tail, k)] == before[k]
        invariant forall k :: 0 <= k < i ==> jitter[Slot(tail, count + k)] == data[k]
        modifies this`head, jitter
      {
        jitter[head] := data[i];
        head := (head + 1) % JitterSize;
        i := i + 1;
      }
      var c0 := count;
      count := count + len;
      forall k | 0 <= k < count
        ensures Contents()[k] == (before + data[..len])[k]
      {
        if k >= c0 {
          assert jitter[Slot(tail, c0 + (k - c0))] == data[k - c0];
        }
      }
    }

    /** Moving the read position forward by `drop` keeps the remaining bytes in place. */
    lemma SlotsAfterDrop(before: seq<byte>, oldTail: nat, drop: nat)
      requires Valid() && oldTail < JitterSize
      requires drop <= |before| <= JitterSize && count + drop == |before|
      requires tail == Slot(oldTail, drop)
      requires forall k :: 0 <= k < |before| ==> before[k] == jitter[Slot(oldTail, k)]
      ensures Contents() == before[drop..]
    {
      forall k | 0 <= k < count
        ensures Contents()[k] == before[drop..][k]
      {
        assert Slot(tail, k) == Slot(oldTail, drop + k);
      }
    }

    /**
     * `jitter_buffer_read`: copies `min(len, count)` of the oldest bytes to
     * `dst` in order and removes them from the buffer.
     */
    method Read(dst: array<byte>, len: nat) returns (n: nat)
      requires Valid()
      requires dst != jitter && len <= dst.Length
      modifies this`tail, this`count, dst
      ensures Valid()
      ensures n == Min(len, old(count))
      ensures dst[..n] == old(Contents())[..n]
      ensures dst[n..] == old(dst[n..])
      ensures Contents() == old(Contents())[n..]
    {
      ghost var before := Contents();
      ghost var oldTail := tail;
      var toRead := if len < count then len else count;
      var i := 0;
      while i < toRead
        invariant 0 <= i <= toRead
        invariant tail == Slot(oldTail, i)
        invariant forall k :: 0 <= k < i ==> dst[k] == before[k]
        invariant dst[toRead..] == old(dst[toRead..])
        invariant forall k :: 0 <= k < |before| ==> before[k] == jitter[Slot(oldTail, k)]
        modifies this`tail, dst
      {
        dst[i] := jitter[tail];
        tail := (tail + 1) % JitterSize;
        i := i + 1;
      }
      count := count - toRead;
      SlotsAfterDrop(before, oldTail, toRead);
      n := toRead;
    }

    /**
     * One pass of the receiver loop on the result of `recvfrom`: timeouts,
     * errors and 1-byte pings are ignored; anything else is counted and
     * written to the jitter buffer.
     */
    method OnDatagram(buf: array<byte>, len: int)
      requires Valid()
      requires buf != jitter && buf.Length == PcmBufSize && len <= PcmBufSize
      modifies this`head, this`tail, this`count, this`overruns, this`packetsReceived, this`bytesReceived, jitter
      ensures Valid()
      ensures len <= 1 ==>
        head == old(head) && tail == old(tail) && count == old(count) && overruns == old(overruns) &&
        packetsReceived == old(packetsReceived) && bytesReceived == old(bytesReceived) &&
        jitter[..] == old(jitter[..])
      ensures len > 1 ==>
        packetsReceived == old(packetsReceived) + 1 &&
        bytesReceived == old(bytesReceived) + len &&
        count == Min(old(count) + len, JitterSize) &&
        Contents() == Last(old(Contents()) + buf[..len], count) &&
        overruns == old(overruns) + (if old(count) + len > JitterSize then 1 else 0)
    {
      if len <= 0 {
        return;
      }
      if len == 1 {
        return;
      }
      packetsReceived := packetsReceived + 1;
      bytesReceived := bytesReceived + len;
      Write(buf, len);
    }

    /**
     * One pass of the playback task. Before priming it only checks the prefill
     * threshold; afterwards it either reads one 640-byte chunk and hands it to
     * the audio driver (whose result is `playRt`), or counts an underrun.
     * `played` is the chunk handed to the driver.
     */
    method PlaybackStep(chunk: array<byte>, playRt: Status) returns (played: Option<seq<byte>>)
      requires Valid()
      requires chunk != jitter && chunk.Length == ChunkSize
      modifies this`tail, this`count, this`playbackStarted, this`playErrors, this`underruns, chunk
      ensures Valid()
      ensures playbackStarted == (old(playbackStarted) || old(count) >= PrefillThreshold)
      ensures !old(playbackStarted) ==>
        played == None && tail == old(tail) && count == old(count) &&
        playErrors == old(playErrors) && underruns == old(underruns)
      ensures old(playbackStarted) && old(count) >= ChunkSize ==>
        played == Some(old(Contents())[..ChunkSize]) &&
        Contents() == old(Contents())[ChunkSize..] &&
        playErrors == old(playErrors) + (if playRt == Ok then 0 else 1) &&
        underruns == old(underruns)
      ensures old(playbackStarted) && old(count) < ChunkSize ==>
        played == None && tail == old(tail) && count == old(count) &&
        playErrors == old(playErrors) && underruns == old(underruns) + 1
    {
      played := None;
      if !playbackStarted {
        if Level() >= PrefillThreshold {
          playbackStarted := true;
        }
        return;
      }
      var level := Level();
      if level >= ChunkSize {
        var read := Read(chunk, ChunkSize);
        if read == ChunkSize {
          played := Some(chunk[..ChunkSize]);
          if playRt != Ok {
            playErrors := playErrors + 1;
          }
        }
      } else {
        underruns := underruns + 1;
      }
    }

    /**
     * `speaker_streaming_init`. The outcomes of the calls into the platform
     * are parameters: creating the mutex, resolving the server address,
     * creating the socket and starting the receiver and playback threads.
     * A failed bind or keepalive thread only logs and is not modelled.
     */
    method Init(host: Option<CString>, mutexRt: Status, resolved: bool, socketOk: bool,
                rxRt: Status, playRt: Status) returns (rt: Status)
      requires Valid()
      modifies this, jitter
      ensures Valid()
      ensures packetsReceived == old(packetsReceived) && bytesReceived == old(bytesReceived)
      ensures playErrors == old(playErrors) && underruns == old(underruns) && overruns == old(overruns)
      ensures host.None? || host.value == [] ==> rt == InvalidParm && unchanged(this) && unchanged(jitter)
      ensures host.Some? && host.value != [] && old(active) ==> rt == Ok && unchanged(this) && unchanged(jitter)
      ensures host.Some? && host.value != [] && !old(active) ==>
        vpsHost == host.value[..Min(|host.value|, HostCapacity)] &&
        (mutexRt != Ok ==>
          rt == mutexRt && head == old(head) && tail == old(tail) && count == old(count) &&
          playbackStarted == old(playbackStarted) && active == old(active) && socketOpen == old(socketOpen) &&
          jitter[..] == old(jitter[..])) &&
        (mutexRt == Ok ==>
          Contents() == [] && head == 0 && tail == 0 && !playbackStarted &&
          (forall i :: 0 <= i < JitterSize ==> jitter[i] == 0) &&
          rt == (if !resolved || !socketOk then ComError
                 else if rxRt != Ok then rxRt
                 else if playRt != Ok then playRt
                 else Ok) &&
          active == (rt == Ok) &&
          socketOpen == (if !resolved || !socketOk then old(socketOpen) else rt == Ok))
    {
      if host.None? || |host.value| == 0 {
        return InvalidParm;
      }
      if active {
        return Ok;
      }
      vpsHost := host.value[..Min(|host.value|, HostCapacity)];
      if mutexRt != Ok {
        return mutexRt;
      }
      head, tail, count := 0, 0, 0;
      playbackStarted := false;
      var i := 0;
      while i < JitterSize
        invariant 0 <= i <= JitterSize
        invariant forall k :: 0 <= k < i ==> jitter[k] == 0
        modifies jitter
      {
        jitter[i] := 0;
        i := i + 1;
      }
      if !resolved {
        return ComError;
      }
      if !socketOk {
        return ComError;
      }
      socketOpen := true;
      active := true;
      rt := Ok;
      if rxRt != Ok {
        rt := rxRt;
      } else if playRt != Ok {
        rt := playRt;
      }
      if rt != Ok {
        active := false;
        socketOpen := false;
      }
    }

    /** `speaker_streaming_stop`: a no-op when inactive; otherwise deactivates and closes the socket, keeping buffer and statistics. */
    method Stop() returns (rt: Status)
      modifies this`active, this`socketOpen
      ensures rt == Ok
      ensures !old(active) ==> active == old(active) && socketOpen == old(socketOpen)
      ensures old(active) ==> !active && !socketOpen
    {
      if !active {
        return Ok;
      }
      active := false;
      socketOpen := false;
      return Ok;
    }
  }
}
