/**
 * The TCP server settings the BLE configuration handler keeps in the
 * device's key-value store, and the Wi-Fi credentials it saves before
 * connecting. Both boards (the devkit and the object-detection app) carry
 * the same code for these.
 *
 * The store (`tal_kv_*`) is a map from key to stored bytes; whether each
 * write succeeds is a parameter. A `uint16_t` is stored as its two bytes in
 * the target's little-endian order.
 */
module Settings {
  import opened Common

  const HostKey := "tcp_srv_host"
  const PortKey := "tcp_srv_port"
  const TokenKey := "tcp_auth_token"
  const SsidKey := "wifi_ssid"
  const PasswdKey := "wifi_passwd"

  /** The port used when none is stored or given. */
  const DefaultPort: uint16 := 5000
  /** The token used when none (or none of a usable length) is stored. */
  const DefaultToken: CString := Ascii("devkit-secret-token")
  /** The size of the caller's host and token buffers. */
  const FieldSize := 64

  /** What `strlen(s) + 1` bytes of a C string are: the string and its NUL. */
  function Terminated(s: CString): (r: seq<byte>)
    ensures |r| == |s| + 1 && UpToNul(r) == s
  {
    NulEnds(s);
    s + [0]
  }

  lemma {:induction false} NulEnds(s: CString)
    ensures UpToNul(s + [0]) == s
  {
    if |s| > 0 {
      assert (s + [0])[1..] == s[1..] + [0];
      NulEnds(s[1..]);
    }
  }

  /** The two bytes of a `uint16_t` in memory, low byte first. */
  function PortBytes(p: uint16): (r: seq<byte>)
    ensures |r| == 2
  {
    [p % 0x100, p / 0x100]
  }

  /** `*(uint16_t *)value` for two stored bytes. */
  function PortValue(v: seq<byte>): (p: uint16)
    requires |v| == 2
  {
    (v[0] as int) + 0x100 * (v[1] as int)
  }

  lemma PortRoundTrip(p: uint16)
    ensures PortValue(PortBytes(p)) == p
  {}

  /** The outcome of `ble_config_load_tcp_settings`. */
  datatype Loaded =
    /** A NULL out-pointer: nothing is written and `INVALID_PARM` is returned. */
    | NullOutput(rt: Status)
    | Loaded(rt: Status, host: CString, port: uint16, token: CString)

  /**
   * `ble_config_load_tcp_settings` over the store's `entries`;
   * `outputsPresent` says whether the three out-pointers are non-NULL.
   * Without a stored host the defaults are left in the outputs and
   * `NotFound` is returned. Otherwise the host is taken only from a stored
   * value of 1..63 bytes, the port only from a value of exactly 2 bytes,
   * and the token from a value of 1..63 bytes or else the default token.
   */
  function Load(entries: map<string, seq<byte>>, outputsPresent: bool): (r: Loaded)
    ensures !outputsPresent <==> r == NullOutput(InvalidParm)
    ensures outputsPresent && HostKey !in entries ==> r == Loaded(NotFound, [], DefaultPort, [])
    ensures outputsPresent && HostKey in entries ==> r.Loaded? && r.rt == Ok
    ensures r.Loaded? ==> |r.host| < FieldSize && |r.token| < FieldSize
    ensures r.Loaded? && r.rt == Ok ==>
      (PortKey !in entries || |entries[PortKey]| != 2 ==> r.port == DefaultPort) &&
      (TokenKey !in entries || !(0 < |entries[TokenKey]| < FieldSize) ==> r.token == DefaultToken)
  {
    if !outputsPresent then NullOutput(InvalidParm)
    else if HostKey !in entries then Loaded(NotFound, [], DefaultPort, [])
    else
      var hv := entries[HostKey];
      var host := if 0 < |hv| < FieldSize then UpToNul(hv) else [];
      var port := if PortKey in entries && |entries[PortKey]| == 2 then PortValue(entries[PortKey]) else DefaultPort;
      var token :=
        if TokenKey in entries && 0 < |entries[TokenKey]| < FieldSize then UpToNul(entries[TokenKey])
        else DefaultToken;
      Loaded(Ok, host, port, token)
  }

  /** The store after a save whose three writes all succeed. */
  function Saved(entries: map<string, seq<byte>>, host: CString, port: uint16, token: CString): (e: map<string, seq<byte>>)
    ensures e.Keys == entries.Keys + {HostKey, PortKey, TokenKey}
  {
    entries[HostKey := Terminated(host)][PortKey := PortBytes(port)][TokenKey := Terminated(token)]
  }

  /** The arguments `set_tcp` passes to the save, or none when the command has no string host. */
  datatype Json = JString(s: CString) | JNumber(n: int) | JOther

  /**
   * The `set_tcp` command: nothing happens without a string `host`;
   * otherwise the port is the number's `valueint` converted to `uint16_t`
   * (5000 when absent or not a number) and the token the given string
   * (empty when absent or not a string).
   */
  function SetTcpArgs(host: Option<Json>, port: Option<Json>, token: Option<Json>): (r: Option<(CString, uint16, CString)>)
    ensures r.Some? <==> host.Some? && host.value.JString?
    ensures r.Some? ==> r.value.0 == host.value.s
    ensures r.Some? ==> r.value.1 == (if port.Some? && port.value.JNumber? then Trunc16(port.value.n) else DefaultPort)
    ensures r.Some? ==> r.value.2 == (if token.Some? && token.value.JString? then token.value.s else [])
  {
    match host
    case Some(JString(h)) =>
      var p: uint16 := match port case Some(JNumber(n)) => Trunc16(n) case _ => DefaultPort;
      var t: CString := match token case Some(JString(s)) => s case _ => [];
      Some((h, p, t))
    case _ => None
  }

  /**
   * A save that succeeds in full is read back by the load: the same host,
   * port and token, an empty token included, as long as the host and the
   * token each fit the 64-byte buffers with their NUL.
   */
  lemma SaveLoadRoundTrip(entries: map<string, seq<byte>>, host: CString, port: uint16, token: CString)
    requires |host| < FieldSize - 1 && |token| < FieldSize - 1
    ensures Load(Saved(entries, host, port, token), true) == Loaded(Ok, host, port, token)
  {
    PortRoundTrip(port);
  }

  /** A host of 63 bytes or more is saved but loads back as empty, with `Ok`. */
  lemma LongHostLoadsEmpty(entries: map<string, seq<byte>>, host: CString, port: uint16, token: CString)
    requires |host| >= FieldSize - 1
    ensures Load(Saved(entries, host, port, token), true).rt == Ok
    ensures Load(Saved(entries, host, port, token), true).host == []
  {}

  /** A token that does not fit is replaced by the default token on load. */
  lemma LongTokenLoadsDefault(entries: map<string, seq<byte>>, host: CString, port: uint16, token: CString)
    requires |token| >= FieldSize - 1
    ensures Load(Saved(entries, host, port, token), true).token == DefaultToken
  {}

  /** A `set_tcp` whose save succeeds is read back with the port cut to 16 bits. */
  lemma SetTcpThenLoad(entries: map<string, seq<byte>>, host: CString, port: int, token: Option<Json>)
    requires |host| < FieldSize - 1
    requires token.Some? && token.value.JString? ==> |token.value.s| < FieldSize - 1
    ensures
      var args := SetTcpArgs(Some(JString(host)), Some(JNumber(port)), token);
      var l := Load(Saved(entries, args.value.0, args.value.1, args.value.2), true);
      l.rt == Ok && l.host == host && l.port == port % 0x1_0000 &&
      l.token == (if token.Some? && token.value.JString? then token.value.s else [])
  {
    var args := SetTcpArgs(Some(JString(host)), Some(JNumber(port)), token);
    SaveLoadRoundTrip(entries, args.value.0, args.value.1, args.value.2);
  }

  /** The device's key-value store. */
  class KvStore {
    var entries: map<string, seq<byte>>

    constructor (initial: map<string, seq<byte>>)
      ensures entries == initial
    {
      entries := initial;
    }

    /** `tal_kv_set`: `rt` is what the store reports; the value is kept only on success. */
    method Set(key: string, value: seq<byte>, rt: Status) returns (r: Status)
      modifies this
      ensures r == rt
      ensures entries == if rt == Ok then old(entries)[key := value] else old(entries)
    {
      if rt == Ok {
        entries := entries[key := value];
      }
      r := rt;
    }

    /**
     * `ble_config_save_tcp_settings`: refuses a NULL host or token, then
     * writes the host (with its NUL), the port (two bytes) and the token
     * (with its NUL), stopping at the first write that fails and returning
     * its code. `hostRt`, `portRt` and `tokenRt` are what the three writes
     * report.
     */
    method Save(host: Option<CString>, port: uint16, token: Option<CString>, hostRt: Status, portRt: Status, tokenRt: Status)
      returns (rt: Status)
      modifies this
      ensures host.None? || token.None? ==> rt == InvalidParm && entries == old(entries)
      ensures host.Some? && token.Some? ==>
        && rt == (if hostRt != Ok then hostRt else if portRt != Ok then portRt else tokenRt)
        && (hostRt != Ok ==> entries == old(entries))
        && (hostRt == Ok && portRt != Ok ==> entries == old(entries)[HostKey := Terminated(host.value)])
        && (hostRt == Ok && portRt == Ok && tokenRt != Ok ==>
              entries == old(entries)[HostKey := Terminated(host.value)][PortKey := PortBytes(port)])
        && (rt == Ok ==> entries == Saved(old(entries), host.value, port, token.value))
    {
      if host.None? || token.None? {
        return InvalidParm;
      }
      rt := Set(HostKey, Terminated(host.value), hostRt);
      if rt != Ok {
        return;
      }
      rt := Set(PortKey, PortBytes(port), portRt);
      if rt != Ok {
        return;
      }
      rt := Set(TokenKey, Terminated(token.value), tokenRt);
    }

    /**
     * `ble_config_wifi_connect`: refuses a NULL or empty SSID without
     * touching the store; otherwise saves the SSID and the password (empty
     * when NULL), the password only if the SSID was saved, ignoring the
     * outcome, and returns what the station connect (`connectRt`) reports.
     */
    method WifiConnect(ssid: Option<CString>, password: Option<CString>, ssidRt: Status, passwdRt: Status, connectRt: Status)
      returns (rt: Status)
      modifies this
      ensures ssid.None? || ssid.value == [] ==> rt == InvalidParm && entries == old(entries)
      ensures ssid.Some? && ssid.value != [] ==>
        var pw := if password.Some? then password.value else [];
        && rt == connectRt
        && (ssidRt != Ok ==> entries == old(entries))
        && (ssidRt == Ok && passwdRt != Ok ==> entries == old(entries)[SsidKey := Terminated(ssid.value)])
        && (ssidRt == Ok && passwdRt == Ok ==>
              entries == old(entries)[SsidKey := Terminated(ssid.value)][PasswdKey := Terminated(pw)])
    {
      if ssid.None? || ssid.value == [] {
        return InvalidParm;
      }
      var pw := if password.Some? then password.value else [];
      var r := Set(SsidKey, Terminated(ssid.value), ssidRt);
      if r == Ok {
        r := Set(PasswdKey, Terminated(pw), passwdRt);
      }
      rt := connectRt;
    }
  }
}
