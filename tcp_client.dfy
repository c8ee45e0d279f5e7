/**
 * The devkit's TCP client: messages travel as a 4-byte little-endian length
 * followed by that many bytes. The client keeps one connection to the
 * server, a receiver task reads framed messages into a 2048-byte buffer, and
 * a blocking receive collects raw voice data.
 *
 * One pass of the receiver task is `Connect` (when disconnected) or
 * `Receive`; the socket's answers are parameters.
 */
module TcpClient {
  import opened Common

  /** `TCP_RECV_BUF_SIZE` */
  const RecvBufSize := 2048
  /** The largest piece `tcp_client_receive_data` asks the socket for at once. */
  const MaxChunk := 4096
  /** The host field holds 63 characters and a terminator. */
  const HostCapacity := 63
  /** The message the client sends right after connecting when the build defines no token. */
  const DefaultAuthMessage: CString := Ascii("auth:devkit-secret-token")
  /** The size of `auth_msg`: `snprintf` keeps at most 127 characters and a terminator. */
  const AuthBufSize := 128

  /**
   * The message the client sends right after connecting: with a
   * `TCP_AUTH_TOKEN` (`token`), `auth:` and the token, cut to what fits the
   * 128-byte buffer; without one, the default token's message.
   */
  function AuthMessage(token: Option<CString>): (m: CString)
    ensures token.None? ==> m == DefaultAuthMessage
    ensures token.Some? ==>
      && |m| == Min(5 + |token.value|, AuthBufSize - 1)
      && m == (Ascii("auth:") + token.value)[..|m|]
  {
    match token
    case None => DefaultAuthMessage
    case Some(t) =>
      var full: CString := Ascii("auth:") + t;
      if |full| < AuthBufSize then full else full[..AuthBufSize - 1]
  }

  /** The length header `tcp_client_send` writes: byte k is bits 8k..8k+7 of `len`. */
  function EncodeHeader(len: uint32): (h: seq<byte>)
    ensures |h| == 4
    ensures forall k :: 0 <= k < 4 ==> h[k] < 0x100
  {
    [len % 0x100, len / 0x100 % 0x100, len / 0x1_0000 % 0x100, len / 0x100_0000 % 0x100]
  }

  /**
   * The length the receiver task reads from a header. The four shifted bytes
   * occupy disjoint bits, so their bitwise or is their sum; the last shift
   * is done on a C `int`, and the model keeps the 32-bit pattern as the
   * unsigned value it is assigned to.
   */
  function DecodeHeader(h: seq<byte>): (len: uint32)
    requires |h| == 4
    ensures len % 0x100 == h[0]
    ensures len / 0x100_0000 == h[3]
  {
    h[0] + 0x100 * (h[1] as int) + 0x1_0000 * (h[2] as int) + 0x100_0000 * (h[3] as int)
  }

  /** Decoding an encoded header gives the length back. */
  lemma DecodeEncode(len: uint32)
    ensures DecodeHeader(EncodeHeader(len)) == len
  {
    var h := EncodeHeader(len);
    assert len / 0x100 == h[1] + 0x100 * (len / 0x1_0000) by {
      assert len / 0x1_0000 == len / 0x100 / 0x100;
    }
    assert len / 0x1_0000 == h[2] + 0x100 * (len / 0x100_0000) by {
      assert len / 0x100_0000 == len / 0x1_0000 / 0x100;
    }
  }

  /** Every header is the encoding of the length it decodes to. */
  lemma EncodeDecode(h: seq<byte>)
    requires |h| == 4
    ensures EncodeHeader(DecodeHeader(h)) == h
  {
    var len := DecodeHeader(h);
    var e := EncodeHeader(len);
    assert len / 0x100 == h[1] + 0x100 * (h[2] as int) + 0x1_0000 * (h[3] as int);
    assert len / 0x1_0000 == h[2] + 0x100 * (h[3] as int);
    assert e[1] == h[1] && e[2] == h[2];
  }

  /** The receiver task accepts a body length only when it leaves room for the terminator. */
  predicate AcceptedLength(len: uint32)
  {
    0 < len <= RecvBufSize - 1
  }

  /**
   * What one `tal_net_recv` call yields: some bytes, zero, or a negative
   * result; `transient` says whether the errno read afterwards is a timeout
   * or would-block (or, after zero, no error at all).
   */
  datatype RecvResult =
    | Data(bytes: seq<byte>)
    | Zero(transient: bool)
    | Negative(transient: bool)

  predicate WellFormed(r: RecvResult, requested: nat)
  {
    r.Data? ==> 0 < |r.bytes| <= requested
  }

  /** One iteration of the loop in `tcp_client_receive_data`. */
  datatype RecvStep =
    /** More than `timeout_ms` have passed since the call began. */
    | Expired
    /** The socket holds `bytes`; the call takes as many as it asks for. */
    | Got(bytes: seq<byte>)
    /** A timeout or would-block error. */
    | Again
    /** A zero-byte result or any other error. */
    | Broken

  /** The bytes `tcp_client_receive_data` collects when `want` more are expected and the loop meets `steps`. */
  function Collected(steps: seq<RecvStep>, want: nat): (r: seq<byte>)
    ensures |r| <= want
  {
    if want == 0 || |steps| == 0 then []
    else match steps[0]
      case Got(bytes) =>
        if |bytes| == 0 then []
        else
          var k := Min(|bytes|, Min(want, MaxChunk));
          bytes[..k] + Collected(steps[1..], want - k)
      case Again => Collected(steps[1..], want)
      case _ => []
  }

  /**
   * When every read finds at least a full piece waiting and there are
   * enough reads, the whole expected length is collected.
   */
  lemma {:induction false} CollectedComplete(steps: seq<RecvStep>, want: nat)
    requires forall i :: 0 <= i < |steps| ==> steps[i].Got? && |steps[i].bytes| >= MaxChunk
    requires want <= MaxChunk * |steps|
    ensures |Collected(steps, want)| == want
    decreases |steps|
  {
    if want == 0 {
    } else {
      assert steps[0].Got?;
      var k := Min(want, MaxChunk);
      CollectedComplete(steps[1..], want - k);
    }
  }

  class Client {
    /** `g_ctx.host`: at most 63 characters. */
    var host: seq<byte>
    var port: uint16
    var socketFd: int
    var connected: bool
    var running: bool
    /** `g_ctx.recv_buf` */
    const recvBuf: array<byte>

    ghost predicate Valid()
      reads this
    {
      recvBuf.Length == RecvBufSize && |host| <= HostCapacity && (connected ==> socketFd >= 0)
    }

    /** The zeroed context before `tcp_client_init`. */
    constructor ()
      ensures Valid() && fresh(recvBuf)
      ensures host == [] && port == 0 && socketFd == 0 && !connected && !running
    {
      host, port, socketFd, connected, running := [], 0, 0, false, false;
      recvBuf := new byte[RecvBufSize];
    }

    /**
     * `tcp_client_init`: clears the context and keeps the first 63
     * characters of `host`; `mutexRt` is the result of creating the mutex,
     * returned as is.
     */
    method Init(newHost: CString, newPort: uint16, mutexRt: Status) returns (rt: Status)
      requires Valid()
      modifies this
      ensures Valid()
      ensures host == newHost[..Min(|newHost|, HostCapacity)] && port == newPort
      ensures socketFd == -1 && !connected && !running
      ensures rt == mutexRt
    {
      host := newHost[..Min(|newHost|, HostCapacity)];
      port := newPort;
      socketFd, connected, running := -1, false, false;
      rt := mutexRt;
    }

    /** `tcp_client_start`: a no-op while running; `threadRt` is the result of creating the receiver task. */
    method Start(threadRt: Status) returns (rt: Status)
      requires Valid()
      modifies this`running
      ensures Valid()
      ensures old(running) ==> rt == Ok && running
      ensures !old(running) ==> rt == threadRt && (running <==> threadRt == Ok)
    {
      if running {
        return Ok;
      }
      running := true;
      if threadRt != Ok {
        running := false;
        return threadRt;
      }
      rt := Ok;
    }

    /** `disconnect_from_server`: closes an open socket and forgets the connection. */
    method Disconnect()
      requires Valid()
      modifies this`socketFd, this`connected
      ensures Valid() && !connected
      ensures socketFd == (if old(socketFd) >= 0 then -1 else old(socketFd))
    {
      if socketFd >= 0 {
        socketFd := -1;
      }
      connected := false;
    }

    /** `tcp_client_stop` */
    method Stop()
      requires Valid()
      modifies this`running, this`socketFd, this`connected
      ensures Valid() && !running && !connected && socketFd < 0
      ensures old(socketFd) >= 0 ==> socketFd == -1
    {
      running := false;
      Disconnect();
    }

    /**
     * `connect_to_server`: `fd` is the new socket, `resolved` whether the
     * host resolved to an address and `connectRt` the result of connecting.
     * On success the client is connected and the authentication message is
     * returned for sending; `token` is the build's `TCP_AUTH_TOKEN`, if any.
     */
    method Connect(fd: int, resolved: bool, connectRt: Status, token: Option<CString>) returns (rt: Status, auth: Option<CString>)
      requires Valid() && !connected
      modifies this`socketFd, this`connected
      ensures Valid()
      ensures fd < 0 ==> rt == SockErr && socketFd == fd && !connected && auth == None
      ensures fd >= 0 && !resolved ==> rt == SockErr && socketFd == -1 && !connected && auth == None
      ensures fd >= 0 && resolved && connectRt != Ok ==> rt == connectRt && socketFd == -1 && !connected && auth == None
      ensures fd >= 0 && resolved && connectRt == Ok ==> rt == Ok && socketFd == fd && connected && auth == Some(AuthMessage(token))
    {
      auth := None;
      socketFd := fd;
      if socketFd < 0 {
        return SockErr, None;
      }
      if !resolved {
        socketFd := -1;
        return SockErr, None;
      }
      if connectRt != Ok {
        socketFd := -1;
        return connectRt, None;
      }
      connected := true;
      rt, auth := Ok, Some(AuthMessage(token));
    }

    /**
     * One pass of `tcp_receiver_task` on a connected client. `header` is the
     * result of asking for four bytes and `body` the result of asking for
     * the announced length. Timeouts and short headers are skipped, a length
     * outside 1..2047 is skipped without reading a body, and any other
     * failure drops the connection. A body is stored in the receive buffer
     * with a terminating NUL after it and handed to the callback (the
     * returned message).
     */
    method Receive(header: RecvResult, body: RecvResult) returns (msg: Option<seq<byte>>)
      requires Valid() && connected
      requires WellFormed(header, 4)
      requires header.Data? && |header.bytes| == 4 ==> WellFormed(body, DecodeHeader(header.bytes))
      modifies this`socketFd, this`connected, recvBuf
      ensures Valid()
      ensures header.Data? && |header.bytes| == 4 && AcceptedLength(DecodeHeader(header.bytes)) && body.Data? ==>
        && msg == Some(body.bytes)
        && recvBuf[..|body.bytes|] == body.bytes && recvBuf[|body.bytes|] == 0
        && recvBuf[|body.bytes| + 1..] == old(recvBuf[|body.bytes| + 1..])
        && connected && socketFd == old(socketFd)
      ensures header.Data? && |header.bytes| == 4 && AcceptedLength(DecodeHeader(header.bytes)) && !body.Data? ==>
        msg == None && !connected && socketFd == -1 && unchanged(recvBuf)
      ensures header.Data? && (|header.bytes| < 4 || !AcceptedLength(DecodeHeader(header.bytes))) ==>
        msg == None && connected && socketFd == old(socketFd) && unchanged(recvBuf)
      ensures !header.Data? ==>
        && msg == None && unchanged(recvBuf)
        && (header.transient ==> connected && socketFd == old(socketFd))
        && (!header.transient ==> !connected && socketFd == -1)
    {
      msg := None;
      if !header.Data? {
        if !header.transient {
          Disconnect();
        }
        return;
      }
      if |header.bytes| < 4 {
        return;
      }
      var msgLen := DecodeHeader(header.bytes);
      if !AcceptedLength(msgLen) {
        return;
      }
      if !body.Data? {
        Disconnect();
        return;
      }
      var data := body.bytes;
      var i := 0;
      while i < |data|
        invariant 0 <= i <= |data| < recvBuf.Length
        invariant recvBuf[..i] == data[..i]
        invariant forall k :: i <= k < recvBuf.Length ==> recvBuf[k] == old(recvBuf[k])
        modifies recvBuf
      {
        recvBuf[i] := data[i];
        assert recvBuf[..i + 1] == recvBuf[..i] + [data[i]];
        assert data[..i + 1] == data[..i] + [data[i]];
        i := i + 1;
      }
      assert recvBuf[..|data|] == data;
      recvBuf[|data|] := 0;
      assert recvBuf[..|data|] == data;
      assert recvBuf[|data| + 1..] == old(recvBuf[|data| + 1..]);
      msg := Some(data);
    }

    /**
     * `tcp_client_send`: refuses when not connected, otherwise sends the
     * length header and then the data. `headerSent` and `dataSent` say
     * whether each send went through in full. Returns the pieces handed to
     * the socket.
     */
    method Send(data: seq<byte>, headerSent: bool, dataSent: bool) returns (rt: Status, wire: seq<seq<byte>>)
      requires Valid() && |data| < 0x1_0000_0000
      ensures !connected || socketFd < 0 ==> rt == SockErr && wire == []
      ensures connected && socketFd >= 0 ==>
        && |wire| >= 1 && wire[0] == EncodeHeader(|data|)
        && (wire == [EncodeHeader(|data|)] <==> !headerSent)
        && (headerSent ==> wire == [EncodeHeader(|data|), data])
        && (rt == Ok <==> headerSent && dataSent)
        && (rt != Ok ==> rt == SockErr)
    {
      if !connected || socketFd < 0 {
        return SockErr, [];
      }
      var header := EncodeHeader(|data|);
      wire := [header];
      if !headerSent {
        return SockErr, wire;
      }
      wire := wire + [data];
      if !dataSent {
        return SockErr, wire;
      }
      rt := Ok;
    }

    /**
     * `tcp_client_receive_data`: refuses (-1) when not connected, without a
     * buffer or with a non-positive length; otherwise reads into `buf` in
     * pieces of at most 4096 bytes until `len` bytes have arrived, the
     * overall timeout passes, or the socket fails, and returns the count.
     * The loop's iterations are `steps`; running out of them stands for the
     * timeout.
     */
    method ReceiveData(buf: array?<byte>, len: int, steps: seq<RecvStep>) returns (r: int)
      requires Valid()
      requires buf != null && len > 0 ==> len <= buf.Length
      modifies buf
      ensures !connected || socketFd < 0 || buf == null || len <= 0 ==> r == -1 && (buf != null ==> unchanged(buf))
      ensures connected && socketFd >= 0 && buf != null && len > 0 ==>
        && 0 <= r <= len
        && buf[..r] == Collected(steps, len)
        && forall k :: r <= k < buf.Length ==> buf[k] == old(buf[k])
    {
      if !connected || socketFd < 0 {
        return -1;
      }
      if buf == null || len <= 0 {
        return -1;
      }
      var total := 0;
      var i := 0;
      var done := false;
      while total < len && i < |steps| && !done
        invariant 0 <= total <= len && 0 <= i <= |steps|
        invariant forall k :: total <= k < buf.Length ==> buf[k] == old(buf[k])
        invariant !done ==> buf[..total] + Collected(steps[i..], len - total) == Collected(steps, len)
        invariant done ==> buf[..total] == Collected(steps, len)
        decreases |steps| - i
      {
        match steps[i] {
          case Expired =>
            done := true;
          case Again =>
          case Broken =>
            done := true;
          case Got(bytes) =>
            if |bytes| == 0 {
              done := true;
            } else {
              var chunk := Min(len - total, MaxChunk);
              var got := Min(|bytes|, chunk);
              CopyAt(buf, total, bytes[..got]);
              total := total + got;
            }
        }
        i := i + 1;
      }
      r := total;
    }
  }

  /** Copies `bytes` into `buf` from index `at`, leaving the rest of `buf` as it was. */
  method CopyAt(buf: array<byte>, at: nat, bytes: seq<byte>)
    requires at + |bytes| <= buf.Length
    modifies buf
    ensures buf[..at] == old(buf[..at])
    ensures buf[at..at + |bytes|] == bytes
    ensures forall k :: at + |bytes| <= k < buf.Length ==> buf[k] == old(buf[k])
  {
    var j := 0;
    while j < |bytes|
      invariant 0 <= j <= |bytes|
      invariant buf[..at] == old(buf[..at])
      invariant buf[at..at + j] == bytes[..j]
      invariant forall k :: at + j <= k < buf.Length ==> buf[k] == old(buf[k])
    {
      buf[at + j] := bytes[j];
      j := j + 1;
    }
  }
}
