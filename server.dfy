/**
 * The companion web server's side of the devkit link: the table-driven
 * G.711 mu-law decoder, the framing of messages sent to the devkit, the
 * parser that splits the TCP byte stream into frames, the authentication
 * gate every message passes, and the UDP audio receiver's packet
 * classification and sequence-gap counter.
 *
 * WebSocket and HTTP clients, broadcasting and goroutines are not part of
 * this model: each place where the server broadcasts becomes an `Action`.
 */
module Server {
  import opened Common
  import G711
  import TcpClient
  import ServerTable

  /** `sample & 0xFF` and `(sample >> 8) & 0xFF` of an `int16`. */
  function LowByte(x: int16): (r: byte)
    ensures (r - x) % 0x100 == 0
  {
    x % 0x100
  }

  function HighByte(x: int16): (r: byte)
  {
    x / 0x100 % 0x100
  }

  /** The bytes are the little-endian two's-complement encoding of the sample. */
  lemma BytesOfSample(x: int16)
    ensures Wrap16(LowByte(x) + 0x100 * (HighByte(x) as int)) == x
  {
    var lo := LowByte(x);
    var hi := HighByte(x);
    assert x == lo + 0x100 * (x / 0x100);
    if x >= 0 {
      assert hi == x / 0x100;
    } else {
      assert hi == x / 0x100 + 0x100;
      assert lo + 0x100 * (hi as int) == x + 0x1_0000;
    }
  }

  /** `decodeG711ULaw`: two little-endian bytes per input byte. */
  function DecodeG711ULaw(ulaw: seq<byte>): (pcm: seq<byte>)
    ensures |pcm| == 2 * |ulaw|
  {
    ServerTable.TableLength();
    seq(2 * |ulaw|, k requires 0 <= k < 2 * |ulaw| =>
      if k % 2 == 0 then LowByte(ServerTable.Table[ulaw[k / 2]]) else HighByte(ServerTable.Table[ulaw[k / 2]]))
  }

  /** Each pair of output bytes is the little-endian form of the sample the firmware's decoder gives for that input byte. */
  lemma DecodeMatchesFirmware(ulaw: seq<byte>)
    ensures forall i :: 0 <= i < |ulaw| ==>
      var pcm := DecodeG711ULaw(ulaw);
      Wrap16(pcm[2 * i] + 0x100 * (pcm[2 * i + 1] as int)) == G711.UlawToLinear(ulaw[i])
  {
    forall i | 0 <= i < |ulaw| {
      PairMatchesFirmware(ulaw, i);
    }
  }

  /** The pair of output bytes for input byte `i`. */
  lemma PairMatchesFirmware(ulaw: seq<byte>, i: nat)
    requires i < |ulaw|
    ensures var pcm := DecodeG711ULaw(ulaw);
      Wrap16(pcm[2 * i] + 0x100 * (pcm[2 * i + 1] as int)) == G711.UlawToLinear(ulaw[i])
  {
    var pcm := DecodeG711ULaw(ulaw);
    ServerTable.TableAgrees(ulaw[i]);
    DecodedPair(ulaw, i);
    PairOfSample(pcm[2 * i], pcm[2 * i + 1], ServerTable.Table[ulaw[i]], G711.UlawToLinear(ulaw[i]));
  }

  /** Output bytes `2i` and `2i + 1` are the low and high byte of the table entry for input byte `i`. */
  lemma DecodedPair(ulaw: seq<byte>, i: nat)
    requires i < |ulaw|
    ensures |ServerTable.Table| == 256
    ensures var pcm := DecodeG711ULaw(ulaw);
      && pcm[2 * i] == LowByte(ServerTable.Table[ulaw[i]])
      && pcm[2 * i + 1] == HighByte(ServerTable.Table[ulaw[i]])
  {
    ServerTable.TableLength();
    var k := 2 * i;
    assert k % 2 == 0 && k / 2 == i;
    assert (k + 1) % 2 == 1 && (k + 1) / 2 == i;
  }

  /** Bytes that are the low and high byte of a sample put it back together. */
  lemma PairOfSample(lo: byte, hi: byte, x: int16, y: int16)
    requires lo == LowByte(x) && hi == HighByte(x) && x == y
    ensures Wrap16(lo + 0x100 * (hi as int)) == y
  {
    BytesOfSample(x);
  }

  // ---------------------------------------------------------------------
  // Framing

  /** What `sendToDevKitRaw` writes: the little-endian length, then the payload. */
  function Frame(payload: seq<byte>): (f: seq<byte>)
    requires |payload| < 0x1_0000_0000
    ensures |f| == 4 + |payload| && f[4..] == payload
    ensures TcpClient.DecodeHeader(f[..4]) == |payload|
  {
    TcpClient.DecodeEncode(|payload|);
    assert (TcpClient.EncodeHeader(|payload|) + payload)[..4] == TcpClient.EncodeHeader(|payload|);
    TcpClient.EncodeHeader(|payload|) + payload
  }

  predicate Framable(ps: seq<seq<byte>>)
  {
    forall i :: 0 <= i < |ps| ==> |ps[i]| < 0x1_0000_0000
  }

  /** The frames of `ps`, one after another. */
  function Framed(ps: seq<seq<byte>>): (s: seq<byte>)
    requires Framable(ps)
  {
    if |ps| == 0 then [] else Frame(ps[0]) + Framed(ps[1..])
  }

  /** The length the server reads from a buffer's first four bytes, and where that frame would end in 32-bit arithmetic. */
  function FrameEnd(buffer: seq<byte>): (end: uint32)
    requires |buffer| >= 4
  {
    Trunc32(4 + TcpClient.DecodeHeader(buffer[..4]))
  }

  /** A buffer that holds no complete frame: too short for a header, or shorter than the frame it announces. */
  predicate Incomplete(buffer: seq<byte>)
  {
    |buffer| < 4 || |buffer| < FrameEnd(buffer)
  }

  /**
   * The outcome of the parse loop: the complete frames' payloads in order
   * and the bytes left for the next read, or a slice out of range after the
   * frames handled before it, which stops the server.
   */
  datatype ParseResult =
    | Parsed(frames: seq<seq<byte>>, rest: seq<byte>)
    | SlicePanic(frames: seq<seq<byte>>)

  /** `r` with `payload` handled before it. */
  function Prepend(payload: seq<byte>, r: ParseResult): (r': ParseResult)
    ensures r'.frames == [payload] + r.frames && r'.Parsed? == r.Parsed?
    ensures r.Parsed? ==> r'.rest == r.rest
  {
    match r
    case Parsed(frames, rest) => Parsed([payload] + frames, rest)
    case SlicePanic(frames) => SlicePanic([payload] + frames)
  }

  /** What the parse of a buffer promises about the buffer. */
  ghost predicate Accounts(buffer: seq<byte>, r: ParseResult)
  {
    Framable(r.frames) &&
    (r.Parsed? ==> Framed(r.frames) + r.rest == buffer && Incomplete(r.rest)) &&
    (r.SlicePanic? ==> Framed(r.frames) <= buffer)
  }

  lemma FramedCons(p: seq<byte>, ps: seq<seq<byte>>)
    requires |p| < 0x1_0000_0000 && Framable(ps)
    ensures Framable([p] + ps) && Framed([p] + ps) == Frame(p) + Framed(ps)
  {
    assert ([p] + ps)[1..] == ps;
  }

  /** A buffer that starts with a complete frame is that frame followed by the rest. */
  lemma FrameAtFront(buffer: seq<byte>)
    requires |buffer| >= 4 && 4 <= FrameEnd(buffer) <= |buffer|
    ensures Frame(buffer[4..FrameEnd(buffer)]) == buffer[..FrameEnd(buffer)]
  {
    var end := FrameEnd(buffer);
    TcpClient.EncodeDecode(buffer[..4]);
    assert buffer[..end] == buffer[..4] + buffer[4..end];
  }

  lemma PrependAccounts(buffer: seq<byte>, r: ParseResult)
    requires |buffer| >= 4 && 4 <= FrameEnd(buffer) <= |buffer|
    requires Accounts(buffer[FrameEnd(buffer)..], r)
    ensures Accounts(buffer, Prepend(buffer[4..FrameEnd(buffer)], r))
  {
    var end := FrameEnd(buffer);
    var p := buffer[4..end];
    FrameAtFront(buffer);
    FramedCons(p, r.frames);
    assert buffer == buffer[..end] + buffer[end..];
    if r.SlicePanic? {
      assert Framed(r.frames) <= buffer[end..];
    }
  }

  /**
   * The parse loop of `handleTCPConnection` on `buffer`. The frame's end is
   * computed in `uint32`, so for lengths of 0xFFFFFFFC and more it wraps
   * below 4 and the payload slice runs backwards.
   */
  function Parse(buffer: seq<byte>): (r: ParseResult)
    requires |buffer| < 0x1_0000_0000
    ensures Accounts(buffer, r)
    decreases |buffer|
  {
    if |buffer| < 4 || |buffer| < FrameEnd(buffer) then Parsed([], buffer)
    else if FrameEnd(buffer) < 4 then SlicePanic([])
    else
      var r := Parse(buffer[FrameEnd(buffer)..]);
      PrependAccounts(buffer, r);
      Prepend(buffer[4..FrameEnd(buffer)], r)
  }

  lemma ParseAtFront(buffer: seq<byte>)
    requires 4 <= |buffer| < 0x1_0000_0000 && 4 <= FrameEnd(buffer) <= |buffer|
    ensures Parse(buffer) == Prepend(buffer[4..FrameEnd(buffer)], Parse(buffer[FrameEnd(buffer)..]))
  {}

  lemma ParseStops(buffer: seq<byte>)
    requires |buffer| < 0x1_0000_0000 && Incomplete(buffer)
    ensures Parse(buffer) == Parsed([], buffer)
  {}

  lemma ParseWraps(buffer: seq<byte>)
    requires 4 <= |buffer| < 0x1_0000_0000 && FrameEnd(buffer) < 4
    ensures Parse(buffer) == SlicePanic([])
  {}

  /** `all` is what remains of the parse `r` once `frames` have been handled. */
  ghost predicate Continues(all: ParseResult, frames: seq<seq<byte>>, r: ParseResult)
  {
    all.frames == frames + r.frames &&
    all.SlicePanic? == r.SlicePanic? &&
    (all.Parsed? ==> r.rest == all.rest)
  }

  lemma ContinuesStep(all: ParseResult, frames: seq<seq<byte>>, buffer: seq<byte>)
    requires 4 <= |buffer| < 0x1_0000_0000 && 4 <= FrameEnd(buffer) <= |buffer|
    requires Continues(all, frames, Parse(buffer))
    ensures Continues(all, frames + [buffer[4..FrameEnd(buffer)]], Parse(buffer[FrameEnd(buffer)..]))
  {
    var p := buffer[4..FrameEnd(buffer)];
    var r := Parse(buffer[FrameEnd(buffer)..]);
    ParseAtFront(buffer);
    AppendAssociates(frames, [p], r.frames);
  }

  lemma AppendAssociates<T>(a: seq<T>, b: seq<T>, c: seq<T>)
    ensures a + (b + c) == (a + b) + c
  {}

  lemma ContinuesDone(all: ParseResult, frames: seq<seq<byte>>, r: ParseResult)
    requires Continues(all, frames, r) && r.frames == []
    ensures all.frames == frames && all.SlicePanic? == r.SlicePanic?
    ensures all.Parsed? ==> all.rest == r.rest
  {
    assert frames + [] == frames;
  }

  /** Parsing complete frames followed by an incomplete tail gives back exactly those payloads and that tail. */
  lemma {:induction false} ParseFramed(ps: seq<seq<byte>>, rest: seq<byte>)
    requires Framable(ps) && Incomplete(rest)
    requires |Framed(ps) + rest| < 0x1_0000_0000
    ensures Parse(Framed(ps) + rest) == Parsed(ps, rest)
    decreases |ps|
  {
    if |ps| == 0 {
      assert Framed(ps) + rest == rest;
    } else {
      var buffer := Framed(ps) + rest;
      var f := Frame(ps[0]);
      assert buffer == f + (Framed(ps[1..]) + rest);
      assert buffer[..4] == f[..4];
      assert FrameEnd(buffer) == |f|;
      assert buffer[4..|f|] == ps[0];
      assert buffer[|f|..] == Framed(ps[1..]) + rest;
      ParseFramed(ps[1..], rest);
      assert [ps[0]] + ps[1..] == ps;
    }
  }

  /** What `sendToDevKitRaw` writes parses back to exactly its payload. */
  lemma SendRawRoundTrip(payload: seq<byte>)
    requires |payload| < 0x1_0000_0000 - 4
    ensures Parse(Frame(payload)) == Parsed([payload], [])
  {
    assert Framed([payload]) + [] == Frame(payload) by {
      assert [payload][1..] == [];
    }
    ParseFramed([payload], []);
  }

  /** A header announcing 0xFFFFFFFC bytes or more makes the next slice run out of range. */
  lemma WrappedLengthPanics(buffer: seq<byte>)
    requires 4 <= |buffer| < 0x1_0000_0000
    requires TcpClient.DecodeHeader(buffer[..4]) >= 0xFFFF_FFFC
    ensures Parse(buffer) == SlicePanic([])
  {
    assert FrameEnd(buffer) == 4 + TcpClient.DecodeHeader(buffer[..4]) - 0x1_0000_0000;
    ParseWraps(buffer);
  }

  // ---------------------------------------------------------------------
  // Authentication gate

  const AuthPrefix: seq<byte> := Ascii("auth:")
  const AudioPrefix: seq<byte> := Ascii("audio:")
  const Pong: seq<byte> := Ascii("pong")
  /** The token the server expects when none is configured. */
  const DefaultToken: seq<byte> := Ascii("devkit-secret-token")

  /** What the server does with one message from the devkit. */
  datatype Action =
    /** The right token: the connection becomes authenticated and "auth:ok" is sent. */
    | Accept
    /** A wrong token: "auth:failed" is sent and the connection is closed. */
    | Refuse
    /** Anything else before authentication: "auth:required" is sent and the message dropped. */
    | Require
    /** Audio data, broadcast to the web clients. */
    | Audio(data: seq<byte>)
    /** A keep-alive answer, ignored. */
    | KeepAlive
    /** Any other text, broadcast to the web clients. */
    | Relay(message: seq<byte>)

  /** The reply the server frames and sends back for an action. */
  function Reply(a: Action): (r: Option<seq<byte>>)
    ensures r.Some? <==> a.Accept? || a.Refuse? || a.Require?
  {
    match a
    case Accept => Some(Ascii("auth:ok"))
    case Refuse => Some(Ascii("auth:failed"))
    case Require => Some(Ascii("auth:required"))
    case _ => None
  }

  /** The decision `handleTCPConnection` takes for `msg`, given whether the connection is authenticated. */
  function Classify(token: seq<byte>, authenticated: bool, msg: seq<byte>): (a: Action)
    ensures !authenticated ==> (a == Accept <==> msg == AuthPrefix + token)
    ensures !authenticated ==> (a == Refuse <==> HasPrefix(msg, AuthPrefix) && msg != AuthPrefix + token)
    ensures !authenticated ==> (a == Require <==> !HasPrefix(msg, AuthPrefix))
    ensures authenticated ==> !a.Accept? && !a.Refuse? && !a.Require?
    ensures authenticated ==> (a.Audio? <==> |msg| > 6 && HasPrefix(msg, AudioPrefix))
    ensures a.Audio? ==> AudioPrefix + a.data == msg && |a.data| > 0
    ensures a.Relay? ==> a.message == msg && msg != Pong
  {
    if !authenticated then
      if HasPrefix(msg, AuthPrefix) then
        assert msg == AuthPrefix + msg[5..];
        if msg[5..] == token then Accept else Refuse
      else Require
    else if |msg| > 6 && msg[..6] == AudioPrefix then
      assert msg == AudioPrefix + msg[6..];
      Audio(msg[6..])
    else if msg == Pong then KeepAlive
    else Relay(msg)
  }

  /** The actions for a sequence of messages on one connection; a refusal closes it. */
  function Session(token: seq<byte>, authenticated: bool, msgs: seq<seq<byte>>): (bool, seq<Action>)
    decreases |msgs|
  {
    if |msgs| == 0 then (authenticated, [])
    else
      var a := Classify(token, authenticated, msgs[0]);
      if a == Refuse then (authenticated, [a])
      else
        var rest := Session(token, authenticated || a == Accept, msgs[1..]);
        (rest.0, [a] + rest.1)
  }

  /**
   * A session has at most one action per message, a refusal can only be its
   * last action, and it ends authenticated exactly when it started so or
   * accepted the token.
   */
  lemma {:induction false} SessionShape(token: seq<byte>, authenticated: bool, msgs: seq<seq<byte>>)
    ensures var r := Session(token, authenticated, msgs);
      && |r.1| <= |msgs|
      && (forall i :: 0 <= i < |r.1| ==> r.1[i] == Refuse ==> i == |r.1| - 1)
      && (r.0 <==> authenticated || Accept in r.1)
    decreases |msgs|
  {
    if |msgs| > 0 {
      var a := Classify(token, authenticated, msgs[0]);
      if a != Refuse {
        var rest := Session(token, authenticated || a == Accept, msgs[1..]);
        SessionShape(token, authenticated || a == Accept, msgs[1..]);
        assert Session(token, authenticated, msgs).1 == [a] + rest.1;
      }
    }
  }

  /**
   * Nothing is broadcast on a connection before it authenticates: every
   * audio, keep-alive or relayed message follows an `Accept`.
   */
  lemma {:induction false} NothingBeforeAccept(token: seq<byte>, msgs: seq<seq<byte>>, i: nat)
    requires i < |Session(token, false, msgs).1|
    requires !Session(token, false, msgs).1[i].Accept?
    requires !Session(token, false, msgs).1[i].Refuse?
    requires !Session(token, false, msgs).1[i].Require?
    ensures exists j :: 0 <= j < i && Session(token, false, msgs).1[j] == Accept
    decreases |msgs|
  {
    var acts := Session(token, false, msgs).1;
    var a := Classify(token, false, msgs[0]);
    assert acts[0] == a;
    if a == Accept {
      assert i > 0;
    } else {
      assert a == Require;
      var rest := Session(token, false, msgs[1..]);
      assert acts == [a] + rest.1;
      assert acts[i] == rest.1[i - 1];
      NothingBeforeAccept(token, msgs[1..], i - 1);
      var j :| 0 <= j < i - 1 && rest.1[j] == Accept;
      assert acts[j + 1] == Accept;
    }
  }

  /** Classifying one more message extends a session that has not been refused. */
  lemma {:induction false} SessionStep(token: seq<byte>, authenticated: bool, msgs: seq<seq<byte>>, msg: seq<byte>)
    requires Refuse !in Session(token, authenticated, msgs).1
    ensures
      var s := Session(token, authenticated, msgs);
      var a := Classify(token, s.0, msg);
      Session(token, authenticated, msgs + [msg]) == (s.0 || a == Accept, s.1 + [a])
    decreases |msgs|
  {
    if |msgs| == 0 {
      assert msgs + [msg] == [msg];
      assert Session(token, authenticated, msgs) == (authenticated, []);
      SessionSingle(token, authenticated, msg);
      var a := Classify(token, authenticated, msg);
      assert [] + [a] == [a];
    } else {
      var m, ms := msgs[0], msgs[1..];
      assert msgs == [m] + ms;
      assert msgs + [msg] == [m] + (ms + [msg]);
      var a0 := Classify(token, authenticated, m);
      var rest := Session(token, authenticated || a0 == Accept, ms);
      SessionConsOpen(token, authenticated, m, ms);
      SessionStep(token, authenticated || a0 == Accept, ms, msg);
      var a := Classify(token, rest.0, msg);
      SessionCons(token, authenticated, m, ms + [msg]);
      ConsSnoc(a0, rest.1, a);
    }
  }

  /** Putting an action in front and one at the end can be done in either order. */
  lemma ConsSnoc(x: Action, s: seq<Action>, y: Action)
    ensures [x] + (s + [y]) == ([x] + s) + [y]
  {
  }

  /** A session over a first message and more: that message's action, then the session over the rest. */
  lemma SessionCons(token: seq<byte>, authenticated: bool, m: seq<byte>, ms: seq<seq<byte>>)
    ensures
      var a := Classify(token, authenticated, m);
      Session(token, authenticated, [m] + ms) ==
        if a == Refuse then (authenticated, [a])
        else
          var r := Session(token, authenticated || a == Accept, ms);
          (r.0, [a] + r.1)
  {
    assert ([m] + ms)[0] == m && ([m] + ms)[1..] == ms;
  }

  /** A session over one message holds that message's action alone. */
  lemma SessionSingle(token: seq<byte>, authenticated: bool, msg: seq<byte>)
    ensures
      var a := Classify(token, authenticated, msg);
      Session(token, authenticated, [msg]) == (authenticated || a == Accept, [a])
  {
    assert [msg][1..] == [];
    var a := Classify(token, authenticated, msg);
    assert Session(token, authenticated || a == Accept, []) == (authenticated || a == Accept, []);
    assert [a] + [] == [a];
  }

  /** A session over a first message and more that was not refused: the first message was not refused either, and neither was the rest. */
  lemma SessionConsOpen(token: seq<byte>, authenticated: bool, m: seq<byte>, ms: seq<seq<byte>>)
    requires Refuse !in Session(token, authenticated, [m] + ms).1
    ensures
      var a := Classify(token, authenticated, m);
      var r := Session(token, authenticated || a == Accept, ms);
      a != Refuse && Refuse !in r.1 && Session(token, authenticated, [m] + ms) == (r.0, [a] + r.1)
  {
    SessionCons(token, authenticated, m, ms);
    var a := Classify(token, authenticated, m);
    assert Session(token, authenticated, [m] + ms).1[0] == a;
  }

  /** Once a session is refused, later messages change nothing. */
  lemma {:induction false} SessionPrefix(token: seq<byte>, authenticated: bool, msgs: seq<seq<byte>>, more: seq<seq<byte>>)
    requires Refuse in Session(token, authenticated, msgs).1
    ensures Session(token, authenticated, msgs + more) == Session(token, authenticated, msgs)
    decreases |msgs|
  {
    var a0 := Classify(token, authenticated, msgs[0]);
    assert (msgs + more)[0] == msgs[0];
    if a0 != Refuse {
      assert (msgs + more)[1..] == msgs[1..] + more;
      SessionPrefix(token, authenticated || a0 == Accept, msgs[1..], more);
    }
  }

  /**
   * One more message classified on the state a session has reached keeps
   * the session in step: its action is appended, and an accept
   * authenticates.
   */
  lemma SessionAdvance(token: seq<byte>, startAuth: bool, frames: seq<seq<byte>>, authenticated: bool,
                       actions: seq<Action>, msg: seq<byte>)
    requires Session(token, startAuth, frames) == (authenticated, actions) && Refuse !in actions
    ensures
      var a := Classify(token, authenticated, msg);
      Session(token, startAuth, frames + [msg]) == (authenticated || a == Accept, actions + [a])
  {
    SessionStep(token, startAuth, frames, msg);
  }

  /** One devkit TCP connection as `handleTCPConnection` keeps it. */
  class Connection {
    /** `authToken` */
    const token: seq<byte>
    /** `devkitAuthenticated` as this connection sees it. */
    var authenticated: bool
    /** `buffer`: bytes read but not yet parsed. */
    var buffer: seq<byte>

    /** A new connection starts unauthenticated with an empty buffer. */
    constructor (token: seq<byte>)
      ensures this.token == token && !authenticated && buffer == []
    {
      this.token := token;
      authenticated := false;
      buffer := [];
    }

    /**
     * One read of `handleTCPConnection`: `data` is appended to the buffer,
     * every complete frame is taken off in order and classified, and the
     * incomplete rest stays buffered. Returns the actions and whether the
     * connection ends: a refused token closes it, and a slice out of range
     * stops the server.
     */
    method OnRead(data: seq<byte>) returns (actions: seq<Action>, closed: bool)
      requires |buffer + data| < 0x1_0000_0000
      modifies this`authenticated, this`buffer
      ensures
        var p := Parse(old(buffer) + data);
        var s := Session(token, old(authenticated), p.frames);
        && actions == s.1
        && authenticated == s.0
        && (closed <==> p.SlicePanic? || Refuse in s.1)
        && (p.Parsed? && !closed ==> buffer == p.rest)
    {
      buffer := buffer + data;
      ghost var frames: seq<seq<byte>> := [];
      ghost var all := Parse(buffer);
      ghost var startAuth := authenticated;
      assert all.frames == frames + all.frames;
      actions := [];
      closed := false;
      while |buffer| >= 4
        invariant |buffer| < 0x1_0000_0000
        invariant all == Parse(old(buffer) + data)
        invariant Continues(all, frames, Parse(buffer))
        invariant Session(token, startAuth, frames) == (authenticated, actions)
        invariant Refuse !in actions
        decreases |buffer|
      {
        var end := FrameEnd(buffer);
        if |buffer| < end {
          break;
        }
        if end < 4 {
          ParseWraps(buffer);
          ContinuesDone(all, frames, Parse(buffer));
          closed := true;
          return;
        }
        var msg := buffer[4..end];
        ContinuesStep(all, frames, buffer);
        buffer := buffer[end..];
        var a := Classify(token, authenticated, msg);
        SessionAdvance(token, startAuth, frames, authenticated, actions, msg);
        frames := frames + [msg];
        actions := actions + [a];
        if a == Refuse {
          closed := true;
          SessionPrefix(token, startAuth, frames, Parse(buffer).frames);
          return;
        }
        if a == Accept {
          authenticated := true;
        }
      }
      ParseStops(buffer);
      ContinuesDone(all, frames, Parse(buffer));
    }
  }

  // ---------------------------------------------------------------------
  // UDP receiver

  /** What the UDP loop makes of one datagram. */
  datatype Datagram =
    /** The 1-byte 0xFF keep-alive. */
    | Ping
    /** Too short to carry audio. */
    | Runt
    /** A sequence byte and the mu-law payload. */
    | Packet(seqNo: byte, payload: seq<byte>)

  function ClassifyDatagram(d: seq<byte>): (r: Datagram)
    ensures r == Ping <==> d == [0xFF]
    ensures r == Runt <==> |d| < 2 && d != [0xFF]
    ensures r.Packet? ==> |d| >= 2 && [r.seqNo] + r.payload == d
  {
    if |d| == 1 && d[0] == 0xFF then Ping
    else if |d| < 2 then Runt
    else
      assert d == [d[0]] + d[1..];
      Packet(d[0], d[1..])
  }

  /** The server's UDP statistics. */
  class UdpStats {
    var packetCount: nat
    var lastSeq: byte
    var seqJumps: nat
    var pingCount: nat

    constructor ()
      ensures packetCount == 0 && lastSeq == 0 && seqJumps == 0 && pingCount == 0
    {
      packetCount, lastSeq, seqJumps, pingCount := 0, 0, 0, 0;
    }

    /**
     * One iteration of the UDP loop on a datagram of at most 2048 bytes:
     * pings are counted, runts dropped, and an audio packet records its
     * sequence byte, counting a jump when it is not the successor (mod 256)
     * of the previous one. Returns the decoded PCM of an audio packet.
     */
    method OnDatagram(d: seq<byte>) returns (pcm: Option<seq<byte>>)
      requires |d| <= 2048
      modifies this
      ensures ClassifyDatagram(d) == Ping ==>
        pingCount == old(pingCount) + 1 && pcm == None &&
        packetCount == old(packetCount) && lastSeq == old(lastSeq) && seqJumps == old(seqJumps)
      ensures ClassifyDatagram(d) == Runt ==>
        pcm == None && pingCount == old(pingCount) &&
        packetCount == old(packetCount) && lastSeq == old(lastSeq) && seqJumps == old(seqJumps)
      ensures ClassifyDatagram(d).Packet? ==>
        && pingCount == old(pingCount)
        && packetCount == old(packetCount) + 1
        && lastSeq == d[0]
        && (seqJumps == old(seqJumps) + 1 <==> old(packetCount) > 0 && !Follows(old(lastSeq), d[0]))
        && (seqJumps == old(seqJumps) || seqJumps == old(seqJumps) + 1)
        && pcm == Some(DecodeG711ULaw(d[1..]))
    {
      pcm := None;
      match ClassifyDatagram(d)
      case Ping =>
        pingCount := pingCount + 1;
      case Runt =>
      case Packet(s, payload) =>
        var expected := Trunc8(lastSeq + 1);
        if packetCount > 0 && s != expected {
          seqJumps := seqJumps + 1;
        }
        lastSeq := s;
        packetCount := packetCount + 1;
        pcm := Some(DecodeG711ULaw(payload));
    }
  }

  /** Whether `next` follows `prev` as the sender numbers packets, wrapping after 255. */
  predicate Follows(prev: byte, next: byte)
  {
    next == (prev + 1) % 0x100
  }

  /**
   * The jumps `OnDatagram` counts over the sequence bytes of a run of audio
   * packets: each packet after the first whose byte does not follow its
   * predecessor's.
   */
  function Jumps(seqs: seq<byte>): (r: nat)
    ensures |seqs| > 0 ==> r < |seqs|
    ensures r <= |seqs|
  {
    if |seqs| < 2 then 0
    else Jumps(seqs[..|seqs| - 1]) + (if Follows(seqs[|seqs| - 2], seqs[|seqs| - 1]) then 0 else 1)
  }

  /** A run counts no jump exactly when every packet follows the one before it, 255 wrapping to 0. */
  lemma {:induction false} NoJumpsIffConsecutive(seqs: seq<byte>)
    ensures Jumps(seqs) == 0 <==> forall i :: 0 < i < |seqs| ==> Follows(seqs[i - 1], seqs[i])
  {
    if |seqs| >= 2 {
      var init := seqs[..|seqs| - 1];
      NoJumpsIffConsecutive(init);
      assert forall i :: 0 <= i < |init| ==> init[i] == seqs[i];
    }
  }

  /** The packet numbers 255 and 0 in a row do not count as a jump. */
  lemma WrapIsNoJump()
    ensures Jumps([0xFF, 0x00]) == 0
    ensures Jumps([0x10, 0x12]) == 1
  {
    assert [0xFF, 0x00][..1] == [0xFF];
    assert [0x10, 0x12][..1] == [0x10];
  }
}
