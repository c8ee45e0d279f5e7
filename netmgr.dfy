/**
 * The network manager (`s_netmgr`): the registered network connections,
 * kept in order of priority, the connection in use and its link status.
 *
 * The connection types are single-bit flags and AUTO is no bit at all, so
 * the manager's type mask is a set of types and `mask & type` is
 * membership. The linked list of connection nodes is a sequence, head
 * first. What a connection's `get`, `set` and `open` callbacks report is
 * part of the connection value or a parameter.
 */
module NetMgr {
  import opened Common

  datatype ConnType = Auto | Wifi | Wired | Cellular

  datatype LinkStatus = LinkDown | LinkUp

  /**
   * One registered connection: its type, its priority, the link status its
   * `get` callback reports and which of its callbacks are present.
   */
  datatype Conn = Conn(kind: ConnType, pri: int, link: LinkStatus, hasGet: bool, hasSet: bool, hasOpen: bool)

  /** What the event callback publishes, in order. */
  datatype Event =
    /** `tal_network_card_set_active` for the card of that connection. */
    | CardActivated(kind: ConnType)
    | TypeChanged(kind: ConnType)
    | StatusChanged(status: LinkStatus)

  /** `mask & type` is non-zero. */
  predicate Supports(mask: set<ConnType>, t: ConnType)
  {
    t != Auto && t in mask
  }

  /** Highest priority first. */
  predicate Sorted(s: seq<Conn>)
  {
    forall i, j :: 0 <= i < j < |s| ==> s[i].pri >= s[j].pri
  }

  /** No two connections of the same type. */
  predicate Distinct(s: seq<Conn>)
  {
    forall i, j :: 0 <= i < j < |s| ==> s[i].kind != s[j].kind
  }

  predicate NoAuto(s: seq<Conn>)
  {
    forall i :: 0 <= i < |s| ==> s[i].kind != Auto
  }

  predicate HasKind(s: seq<Conn>, t: ConnType)
  {
    exists i :: 0 <= i < |s| && s[i].kind == t
  }

  /** The index of the first connection of type `t`, if any. */
  function FindKind(s: seq<Conn>, t: ConnType): (r: Option<nat>)
    ensures r.None? <==> !HasKind(s, t)
    ensures r.Some? ==> r.value < |s| && s[r.value].kind == t && forall j :: 0 <= j < r.value ==> s[j].kind != t
  {
    if |s| == 0 then None
    else if s[0].kind == t then Some(0)
    else
      var r := FindKind(s[1..], t);
      assert forall j :: 0 < j < |s| ==> s[j] == s[1..][j - 1];
      if r.Some? then Some(r.value + 1) else None
  }

  /** The type of the first connection whose link is up, if any. */
  function FirstUp(s: seq<Conn>): (r: Option<ConnType>)
    ensures r.None? <==> forall i :: 0 <= i < |s| ==> s[i].link != LinkUp
    ensures r.Some? ==>
      exists i :: 0 <= i < |s| && s[i].link == LinkUp && s[i].kind == r.value &&
        forall j :: 0 <= j < i ==> s[j].link != LinkUp
  {
    if |s| == 0 then None
    else if s[0].link == LinkUp then Some(s[0].kind)
    else
      var r := FirstUp(s[1..]);
      assert forall j :: 0 < j < |s| ==> s[j] == s[1..][j - 1];
      if r.Some? then
        ghost var i :| 0 <= i < |s| - 1 && s[1..][i].link == LinkUp && s[1..][i].kind == r.value &&
          forall j :: 0 <= j < i ==> s[1..][j].link != LinkUp;
        assert s[i + 1] == s[1..][i];
        r
      else r
  }

  /**
   * `__get_active_conn`'s answer: AUTO without connections, else the first
   * connection whose link is up, else the head.
   */
  function ActiveOf(s: seq<Conn>): (r: ConnType)
  {
    if |s| == 0 then Auto
    else match FirstUp(s)
      case Some(t) => t
      case None => s[0].kind
  }

  /** Whether the scan for the active connection reaches a connection without a `get` callback. */
  predicate ScanReachesNullGet(s: seq<Conn>)
  {
    exists i :: 0 <= i < |s| && !s[i].hasGet && forall j :: 0 <= j < i ==> s[j].link != LinkUp
  }

  /** A non-empty list without AUTO connections names one of its own connections as active. */
  lemma ActiveIsRegistered(s: seq<Conn>)
    requires NoAuto(s)
    ensures ActiveOf(s) == Auto <==> |s| == 0
    ensures |s| > 0 ==> HasKind(s, ActiveOf(s))
  {
    if |s| > 0 && FirstUp(s).None? {
      assert s[0].kind == ActiveOf(s);
    }
  }

  /** A connection whose link is up wins over every connection whose link is down. */
  lemma ActivePrefersUp(s: seq<Conn>, k: nat)
    requires Distinct(s) && k < |s| && s[k].link == LinkUp
    ensures exists i :: 0 <= i <= k && s[i].kind == ActiveOf(s) && s[i].link == LinkUp
  {
    var t := FirstUp(s);
    var i :| 0 <= i < |s| && s[i].link == LinkUp && s[i].kind == t.value &&
      forall j :: 0 <= j < i ==> s[j].link != LinkUp;
    assert i <= k;
  }

  /** The position `__netmgr_conn_register` inserts a node of priority `pri` at: before the first node of lower priority. */
  function InsertPos(s: seq<Conn>, pri: int): (p: nat)
    ensures p <= |s|
    ensures forall i :: 0 <= i < p ==> s[i].pri >= pri
    ensures p < |s| ==> s[p].pri < pri
  {
    if |s| == 0 then 0
    else if s[0].pri < pri then 0
    else
      var p := InsertPos(s[1..], pri);
      assert forall i :: 0 < i <= p ==> s[i] == s[1..][i - 1];
      p + 1
  }

  /** The list after inserting `c`. */
  function Insert(s: seq<Conn>, c: Conn): (r: seq<Conn>)
    ensures |r| == |s| + 1
  {
    var p := InsertPos(s, c.pri);
    s[..p] + [c] + s[p..]
  }

  /**
   * Insertion keeps the list in priority order, adds exactly `c`, places it
   * after every node of equal or higher priority, and keeps the types
   * distinct when `c`'s type was absent.
   */
  lemma InsertKeepsOrder(s: seq<Conn>, c: Conn)
    requires Sorted(s)
    ensures Sorted(Insert(s, c))
    ensures multiset(Insert(s, c)) == multiset(s) + multiset{c}
    ensures forall i :: 0 <= i < |s| && s[i].pri >= c.pri ==> Insert(s, c)[i] == s[i]
    ensures Insert(s, c)[InsertPos(s, c.pri)] == c
    ensures Distinct(s) && !HasKind(s, c.kind) ==> Distinct(Insert(s, c))
    ensures NoAuto(s) && c.kind != Auto ==> NoAuto(Insert(s, c))
  {
    InsertShape(s, c);
    InsertSorted(s, c);
    InsertKeepsHigher(s, c);
    InsertMultiset(s, c);
    if Distinct(s) && !HasKind(s, c.kind) {
      InsertDistinct(s, c);
    }
  }

  lemma InsertKeepsHigher(s: seq<Conn>, c: Conn)
    requires Sorted(s)
    ensures forall i :: 0 <= i < |s| && s[i].pri >= c.pri ==> Insert(s, c)[i] == s[i]
  {
    var p := InsertPos(s, c.pri);
    InsertShape(s, c);
    forall i | 0 <= i < |s| && s[i].pri >= c.pri
      ensures Insert(s, c)[i] == s[i]
    {
      if i >= p {
        assert false;
      }
    }
  }

  lemma InsertMultiset(s: seq<Conn>, c: Conn)
    ensures multiset(Insert(s, c)) == multiset(s) + multiset{c}
  {
    var p := InsertPos(s, c.pri);
    assert s == s[..p] + s[p..];
    calc {
      multiset(Insert(s, c));
      multiset(s[..p]) + multiset([c]) + multiset(s[p..]);
      multiset(s[..p]) + multiset(s[p..]) + multiset{c};
      multiset(s) + multiset{c};
    }
  }

  /** Where each element of `s` ends up after the insertion. */
  lemma InsertShape(s: seq<Conn>, c: Conn)
    ensures forall i :: 0 <= i < InsertPos(s, c.pri) ==> Insert(s, c)[i] == s[i]
    ensures Insert(s, c)[InsertPos(s, c.pri)] == c
    ensures forall i :: InsertPos(s, c.pri) < i < |s| + 1 ==> Insert(s, c)[i] == s[i - 1]
  {
    SpliceIndex(s, InsertPos(s, c.pri), c);
  }

  lemma SpliceIndex<T>(s: seq<T>, p: nat, c: T)
    requires p <= |s|
    ensures forall i :: 0 <= i < p ==> (s[..p] + [c] + s[p..])[i] == s[i]
    ensures (s[..p] + [c] + s[p..])[p] == c
    ensures forall i :: p < i < |s| + 1 ==> (s[..p] + [c] + s[p..])[i] == s[i - 1]
  {
  }

  lemma InsertSorted(s: seq<Conn>, c: Conn)
    requires Sorted(s)
    ensures Sorted(Insert(s, c))
  {
    var p := InsertPos(s, c.pri);
    var r := Insert(s, c);
    InsertShape(s, c);
    forall i, j | 0 <= i < j < |r|
      ensures r[i].pri >= r[j].pri
    {
      if j < p {
      } else if j == p {
      } else if i < p {
        assert r[j] == s[j - 1];
      } else if i == p {
        assert r[j] == s[j - 1];
        assert s[p].pri < c.pri;
        assert s[p].pri >= s[j - 1].pri || p == j - 1;
      } else {
        assert r[i] == s[i - 1] && r[j] == s[j - 1];
      }
    }
  }

  lemma InsertDistinct(s: seq<Conn>, c: Conn)
    requires Distinct(s) && !HasKind(s, c.kind)
    ensures Distinct(Insert(s, c))
  {
    var p := InsertPos(s, c.pri);
    var r := Insert(s, c);
    InsertShape(s, c);
    forall i, j | 0 <= i < j < |r|
      ensures r[i].kind != r[j].kind
    {
      if j < p {
      } else if j == p {
        assert r[i] == s[i];
      } else if i < p {
        assert r[j] == s[j - 1];
      } else if i == p {
        assert r[j] == s[j - 1];
      } else {
        assert r[i] == s[i - 1] && r[j] == s[j - 1];
      }
    }
  }

  /** A list holding the connections of distinct types finds each one at its own index. */
  lemma FindUnique(s: seq<Conn>, k: nat)
    requires Distinct(s) && k < |s|
    ensures FindKind(s, s[k].kind) == Some(k)
  {
    var r := FindKind(s, s[k].kind);
    assert r.Some?;
  }

  /** The link status `__get_netmgr_status` leaves in its out-parameter for type `t`. */
  function ReportedLink(mask: set<ConnType>, s: seq<Conn>, t: ConnType): (st: LinkStatus)
    ensures st == LinkUp ==> Supports(mask, t) && HasKind(s, t)
  {
    if !Supports(mask, t) then LinkDown
    else match FindKind(s, t)
      case Some(i) => if s[i].hasGet then s[i].link else LinkDown
      case None => LinkDown
  }

  /** The events published when the active connection and status go from (`a0`, `s0`) to (`a`, `st`). */
  function Changes(a0: ConnType, s0: LinkStatus, a: ConnType, st: LinkStatus): (e: seq<Event>)
    ensures e == [] <==> a == a0 && st == s0
    ensures TypeChanged(a) in e <==> a != a0
    ensures CardActivated(a) in e <==> a != a0
    ensures StatusChanged(st) in e <==> st != s0
    ensures forall x :: x in e ==> x == TypeChanged(a) || x == CardActivated(a) || x == StatusChanged(st)
  {
    if st != s0 && a != a0 then [CardActivated(a), TypeChanged(a), StatusChanged(st)]
    else if st != s0 then [StatusChanged(st)]
    else if a != a0 then [CardActivated(a), TypeChanged(a)]
    else []
  }

  /** The manager state `s_netmgr`. */
  class NetManager {
    var inited: bool
    /** `s_netmgr.type`: the types this device manages. */
    var mask: set<ConnType>
    var active: ConnType
    var status: LinkStatus
    /** `s_netmgr.conn`, head first. */
    var conns: seq<Conn>

    ghost predicate Valid()
      reads this
    {
      && Sorted(conns) && Distinct(conns) && NoAuto(conns)
      && (|conns| == 0 ==> active == Auto)
      && (inited ==> |conns| > 0)
    }

    /** The zero-initialised static structure. */
    constructor ()
      ensures Valid() && !inited && mask == {} && active == Auto && status == LinkDown && conns == []
    {
      inited := false;
      mask := {};
      active := Auto;
      status := LinkDown;
      conns := [];
    }

    /**
     * `__netmgr_conn_register`: refuses a NULL connection and a type that
     * is already registered, leaving the list alone; otherwise inserts the
     * connection after every node of equal or higher priority and returns
     * what its `open` callback (`openRt`) reports, or OK without one.
     */
    method Register(kind: ConnType, conn: Option<Conn>, openRt: Status) returns (rt: Status)
      requires Valid()
      requires kind != Auto && (conn.Some? ==> conn.value.kind == kind)
      modifies this`conns
      ensures Valid()
      ensures conn.None? ==> rt == InvalidParm && conns == old(conns)
      ensures conn.Some? && HasKind(old(conns), kind) ==> rt == InvalidParm && conns == old(conns)
      ensures conn.Some? && !HasKind(old(conns), kind) ==>
        conns == Insert(old(conns), conn.value) && rt == (if conn.value.hasOpen then openRt else Ok)
    {
      if conn.None? {
        return InvalidParm;
      }
      var c := conn.value;
      var i := 0;
      while i < |conns|
        invariant 0 <= i <= |conns|
        invariant forall j :: 0 <= j < i ==> conns[j].kind != kind
      {
        if conns[i].kind == kind {
          return InvalidParm;
        }
        i := i + 1;
      }
      InsertKeepsOrder(conns, c);
      if |conns| == 0 {
        conns := [c];
      } else {
        i := 0;
        while i < |conns| && conns[i].pri >= c.pri
          invariant 0 <= i <= |conns|
          invariant forall j :: 0 <= j < i ==> conns[j].pri >= c.pri
        {
          i := i + 1;
        }
        assert i == InsertPos(conns, c.pri);
        conns := conns[..i] + [c] + conns[i..];
      }
      rt := if c.hasOpen then openRt else Ok;
    }

    /**
     * `__get_active_conn`. The scan calls each connection's `get` without
     * checking it; `nullGet` tells whether it reached a connection that has
     * none, where the source calls a NULL pointer.
     */
    method ActiveConn() returns (r: ConnType, nullGet: bool)
      ensures r == ActiveOf(conns)
      ensures nullGet <==> ScanReachesNullGet(conns)
    {
      nullGet := false;
      if |conns| == 0 {
        return Auto, false;
      }
      r := conns[0].kind;
      var i := 0;
      while i < |conns|
        invariant 0 <= i <= |conns|
        invariant forall j :: 0 <= j < i ==> conns[j].link != LinkUp
        invariant nullGet <==> exists j :: 0 <= j < i && !conns[j].hasGet
      {
        if !conns[i].hasGet {
          nullGet := true;
        }
        if conns[i].link == LinkUp {
          assert FirstUp(conns).Some?;
          assert nullGet ==> ScanReachesNullGet(conns) by {
            if nullGet {
              var j :| 0 <= j <= i && !conns[j].hasGet;
              assert forall k :: 0 <= k < j ==> conns[k].link != LinkUp;
            }
          }
          return conns[i].kind, nullGet;
        }
        i := i + 1;
      }
    }

    /** `__get_conn_by_type`: the index of the node of that type; none for AUTO. */
    method ConnByType(t: ConnType) returns (r: Option<nat>)
      ensures t == Auto ==> r.None?
      ensures t != Auto ==> r == FindKind(conns, t)
    {
      if t == Auto {
        return None;
      }
      var i := 0;
      while i < |conns|
        invariant 0 <= i <= |conns|
        invariant forall j :: 0 <= j < i ==> conns[j].kind != t
      {
        if conns[i].kind == t {
          return Some(i);
        }
        i := i + 1;
      }
      return None;
    }

    /**
     * `__get_netmgr_status`: `present` says whether the out-pointer is
     * non-NULL; `st` is what it holds afterwards (none when never written).
     */
    method GetStatus(t: ConnType, present: bool) returns (rt: Status, st: Option<LinkStatus>)
      ensures !present || t == Auto ==> rt == InvalidParm && st.None?
      ensures present && t != Auto ==> st == Some(ReportedLink(mask, conns, t))
      ensures present && t != Auto && !Supports(mask, t) ==> rt == NotSupported
      ensures present && Supports(mask, t) ==>
        rt == (match FindKind(conns, t) case Some(i) => if conns[i].hasGet then Ok else InvalidParm case None => Ok)
    {
      if !present || t == Auto {
        return InvalidParm, None;
      }
      st := Some(LinkDown);
      if !Supports(mask, t) {
        return NotSupported, st;
      }
      rt := Ok;
      var i := 0;
      while i < |conns|
        invariant 0 <= i <= |conns|
        invariant forall j :: 0 <= j < i ==> conns[j].kind != t
      {
        if conns[i].kind == t {
          assert FindKind(conns, t) == Some(i);
          if !conns[i].hasGet {
            return InvalidParm, st;
          }
          st := Some(conns[i].link);
          break;
        }
        i := i + 1;
      }
    }

    /**
     * `__netmgr_event_cb`: an event for a type outside the mask is ignored.
     * Otherwise the manager takes the active connection and its status
     * afresh, and publishes exactly the changes.
     */
    method OnEvent(t: ConnType) returns (events: seq<Event>)
      requires Valid()
      modifies this`active, this`status
      ensures Valid()
      ensures !Supports(mask, t) ==> events == [] && active == old(active) && status == old(status)
      ensures Supports(mask, t) ==>
        && active == ActiveOf(conns)
        && status == ReportedLink(mask, conns, active)
        && events == Changes(old(active), old(status), active, status)
      ensures active != old(active) ==> HasKind(conns, active)
    {
      events := [];
      if !Supports(mask, t) {
        return;
      }
      var a, _ := ActiveConn();
      var _, st := GetStatus(a, true);
      var linkNow := if st.Some? then st.value else LinkDown;
      ActiveIsRegistered(conns);
      events := Changes(active, status, a, linkNow);
      active, status := a, linkNow;
    }

    /** The type `netmgr_conn_set`/`get` work on: AUTO stands for the active connection. */
    function Target(t: ConnType): (r: ConnType)
      reads this
      ensures t != Auto ==> r == t
    {
      if t == Auto then active else t
    }

    /**
     * `netmgr_conn_set`: not before initialisation; otherwise the `set`
     * callback of the node of the target type is called and its result
     * (`setRt`) returned, OK when no node has that type. `called` is the
     * index of the node whose callback ran.
     */
    method ConnSet(t: ConnType, setRt: Status) returns (rt: Status, called: Option<nat>)
      ensures !inited ==> rt == ResourceNotReady && called.None?
      ensures inited && FindKind(conns, Target(t)).None? ==> rt == Ok && called.None?
      ensures inited && FindKind(conns, Target(t)).Some? ==>
        var i := FindKind(conns, Target(t)).value;
        if conns[i].hasSet then rt == setRt && called == Some(i) else rt == InvalidParm && called.None?
    {
      if !inited {
        return ResourceNotReady, None;
      }
      var target := if t == Auto then active else t;
      rt, called := Ok, None;
      var i := 0;
      while i < |conns|
        invariant 0 <= i <= |conns|
        invariant forall j :: 0 <= j < i ==> conns[j].kind != target
      {
        if conns[i].kind == target {
          assert FindKind(conns, target) == Some(i);
          if !conns[i].hasSet {
            return InvalidParm, None;
          }
          rt, called := setRt, Some(i);
          break;
        }
        i := i + 1;
      }
    }

    /**
     * `netmgr_conn_get`: as the set, through the `get` callback, whose
     * result (`getRt`) is returned.
     */
    method ConnGet(t: ConnType, getRt: Status) returns (rt: Status, called: Option<nat>)
      ensures !inited ==> rt == ResourceNotReady && called.None?
      ensures inited && FindKind(conns, Target(t)).None? ==> rt == Ok && called.None?
      ensures inited && FindKind(conns, Target(t)).Some? ==>
        var i := FindKind(conns, Target(t)).value;
        if conns[i].hasGet then rt == getRt && called == Some(i) else rt == InvalidParm && called.None?
    {
      if !inited {
        return ResourceNotReady, None;
      }
      var target := if t == Auto then active else t;
      rt, called := Ok, None;
      var i := 0;
      while i < |conns|
        invariant 0 <= i <= |conns|
        invariant forall j :: 0 <= j < i ==> conns[j].kind != target
      {
        if conns[i].kind == target {
          assert FindKind(conns, target) == Some(i);
          if !conns[i].hasGet {
            return InvalidParm, None;
          }
          rt := getRt;
          if rt != Ok {
            return rt, Some(i);
          }
          called := Some(i);
          break;
        }
        i := i + 1;
      }
    }

    /**
     * `netmgr_init` for the mask `m`. `wired`, `cellular` and `wifi` are the
     * connections compiled into the build; `cardRt` and `mutexRt` what the
     * network-card and mutex set-up report. Each compiled connection whose
     * type is in the mask is registered (failures ignored); the manager is
     * initialised exactly when some connection is then registered.
     */
    method Init(m: set<ConnType>, wired: Option<Conn>, cellular: Option<Conn>, wifi: Option<Conn>,
                cardRt: Status, mutexRt: Status, openRt: Status)
      returns (rt: Status)
      requires Valid()
      requires wired.Some? ==> wired.value.kind == Wired
      requires cellular.Some? ==> cellular.value.kind == Cellular
      requires wifi.Some? ==> wifi.value.kind == Wifi
      modifies this
      ensures Valid()
      ensures cardRt != Ok ==>
        && rt == cardRt && conns == old(conns) && inited == old(inited)
        && mask == old(mask) && active == old(active) && status == old(status)
      ensures cardRt == Ok && mutexRt != Ok ==>
        && rt == mutexRt && conns == old(conns) && inited == old(inited)
        && mask == old(mask) && active == old(active) && status == old(status)
      ensures cardRt == Ok && mutexRt == Ok ==>
        && mask == m && status == LinkDown && active == ActiveOf(conns)
        && (forall c :: c in old(conns) ==> c in conns)
        && (forall c :: c in conns ==>
              c in old(conns) || (c.kind in m && (Some(c) == wired || Some(c) == cellular || Some(c) == wifi)))
        && (wired.Some? && Wired in m ==> HasKind(conns, Wired))
        && (cellular.Some? && Cellular in m ==> HasKind(conns, Cellular))
        && (wifi.Some? && Wifi in m ==> HasKind(conns, Wifi))
        && (rt == Ok <==> |conns| > 0)
        && (rt == Ok ==> inited)
        && (rt != Ok ==> rt == InvalidParm && inited == old(inited))
    {
      if cardRt != Ok {
        return cardRt;
      }
      if mutexRt != Ok {
        return mutexRt;
      }
      status := LinkDown;
      mask := m;
      RegisterCompiled(m, wired, cellular, wifi, openRt);
      var a, _ := ActiveConn();
      active := a;
      ActiveIsRegistered(conns);
      if a == Auto {
        return InvalidParm;
      }
      inited := true;
      rt := Ok;
    }

    /** The registrations of `netmgr_init`: each compiled connection whose type is in `m`. */
    method RegisterCompiled(m: set<ConnType>, wired: Option<Conn>, cellular: Option<Conn>, wifi: Option<Conn>, openRt: Status)
      requires Valid()
      requires wired.Some? ==> wired.value.kind == Wired
      requires cellular.Some? ==> cellular.value.kind == Cellular
      requires wifi.Some? ==> wifi.value.kind == Wifi
      modifies this`conns
      ensures Valid()
      ensures forall c :: c in old(conns) ==> c in conns
      ensures forall c :: c in conns ==>
        c in old(conns) || (c.kind in m && (Some(c) == wired || Some(c) == cellular || Some(c) == wifi))
      ensures wired.Some? && Wired in m ==> HasKind(conns, Wired)
      ensures cellular.Some? && Cellular in m ==> HasKind(conns, Cellular)
      ensures wifi.Some? && Wifi in m ==> HasKind(conns, Wifi)
    {
      if wired.Some? && Wired in m {
        var _ := RegisterKeeping(Wired, wired, openRt);
      }
      ghost var afterWired := conns;
      if cellular.Some? && Cellular in m {
        var _ := RegisterKeeping(Cellular, cellular, openRt);
      }
      ghost var afterCellular := conns;
      if wifi.Some? && Wifi in m {
        var _ := RegisterKeeping(Wifi, wifi, openRt);
      }
      assert wired.Some? && Wired in m ==> HasKind(afterWired, Wired) && HasKind(conns, Wired);
      assert cellular.Some? && Cellular in m ==> HasKind(afterCellular, Cellular) && HasKind(conns, Cellular);
    }

    /** A registration in `netmgr_init`: afterwards the type is registered and nothing was removed. */
    method RegisterKeeping(kind: ConnType, conn: Option<Conn>, openRt: Status) returns (rt: Status)
      requires Valid()
      requires kind != Auto && conn.Some? && conn.value.kind == kind
      modifies this`conns
      ensures Valid()
      ensures HasKind(conns, kind)
      ensures forall c :: c in old(conns) ==> c in conns
      ensures forall c :: c in conns ==> c in old(conns) || c == conn.value
      ensures forall t :: HasKind(old(conns), t) ==> HasKind(conns, t)
    {
      ghost var s := conns;
      rt := Register(kind, conn, openRt);
      if !HasKind(s, kind) {
        InsertKeepsOrder(s, conn.value);
        assert conns[InsertPos(s, conn.value.pri)] == conn.value;
        forall c | c in s
          ensures c in conns
        {
          assert c in multiset(s);
        }
        forall c | c in conns
          ensures c in s || c == conn.value
        {
          assert c in multiset(conns);
        }
        forall t | HasKind(s, t)
          ensures HasKind(conns, t)
        {
          var i :| 0 <= i < |s| && s[i].kind == t;
          assert s[i] in conns;
        }
      }
    }
  }

  /** After a successful registration the connection is found by its type. */
  lemma RegisterThenFind(s: seq<Conn>, c: Conn)
    requires Sorted(s) && Distinct(s) && !HasKind(s, c.kind)
    ensures FindKind(Insert(s, c), c.kind) == Some(InsertPos(s, c.pri))
  {
    InsertKeepsOrder(s, c);
    FindUnique(Insert(s, c), InsertPos(s, c.pri));
  }
}
