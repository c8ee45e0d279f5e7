/**
 * The `wifi_scan` command of the BLE configuration handler: the access
 * points the scan returns are listed back over BLE, skipping hidden
 * networks (an empty SSID). The devkit first sorts them by signal
 * strength in place and lists at most two; the object-detection board
 * lists at most five in scan order and falls back to a fixed payload when
 * the JSON would not fit the BLE MTU.
 *
 * Building and printing the JSON is done by a library the model does not
 * see; the printed length is a parameter.
 */
module WifiScan {
  import opened Common

  /** One scan result (`AP_IF_S`), with the SSID as the C string it holds. */
  datatype Ap = Ap(ssid: CString, rssi: int, channel: int)

  /** Strongest signal first. */
  predicate NonIncreasing(s: seq<Ap>)
  {
    forall p, q :: 0 <= p < q < |s| ==> s[p].rssi >= s[q].rssi
  }

  /**
   * The devkit's bubble sort of the scan results, strongest first. Each
   * pass swaps neighbours whose order is wrong and leaves the weakest
   * remaining entry at the end of the unsorted part.
   */
  method SortByRssi(a: array<Ap>)
    requires a.Length >= 1
    modifies a
    ensures NonIncreasing(a[..])
    ensures multiset(a[..]) == multiset(old(a[..]))
  {
    var n := a.Length;
    var i := 0;
    while i < n - 1
      invariant 0 <= i <= n - 1
      invariant multiset(a[..]) == multiset(old(a[..]))
      invariant forall p, q :: 0 <= p < n - i <= q < n ==> a[p].rssi >= a[q].rssi
      invariant forall p, q :: n - i <= p < q < n ==> a[p].rssi >= a[q].rssi
    {
      BubblePass(a, n - i);
      i := i + 1;
    }
  }

  /** One pass over `a[..end]`: afterwards `a[end - 1]` is a weakest entry of that part. */
  method BubblePass(a: array<Ap>, end: nat)
    requires 1 <= end <= a.Length
    requires forall p, q :: 0 <= p < end <= q < a.Length ==> a[p].rssi >= a[q].rssi
    requires forall p, q :: end <= p < q < a.Length ==> a[p].rssi >= a[q].rssi
    modifies a
    ensures multiset(a[..]) == multiset(old(a[..]))
    ensures forall k :: end <= k < a.Length ==> a[k] == old(a[k])
    ensures forall p :: 0 <= p < end ==> a[p].rssi >= a[end - 1].rssi
    ensures forall p, q :: 0 <= p < end <= q < a.Length ==> a[p].rssi >= a[q].rssi
  {
    var j := 0;
    while j < end - 1
      invariant 0 <= j <= end - 1
      invariant multiset(a[..]) == multiset(old(a[..]))
      invariant forall k :: end <= k < a.Length ==> a[k] == old(a[k])
      invariant forall p :: 0 <= p <= j ==> a[p].rssi >= a[j].rssi
      invariant forall p, q :: 0 <= p < end <= q < a.Length ==> a[p].rssi >= a[q].rssi
    {
      if a[j].rssi < a[j + 1].rssi {
        Swap(a, j);
      }
      j := j + 1;
    }
  }

  /** Exchanges `a[j]` and `a[j + 1]`. */
  method Swap(a: array<Ap>, j: nat)
    requires j + 1 < a.Length
    modifies a
    ensures a[j] == old(a[j + 1]) && a[j + 1] == old(a[j])
    ensures forall k :: 0 <= k < a.Length && k != j && k != j + 1 ==> a[k] == old(a[k])
    ensures multiset(a[..]) == multiset(old(a[..]))
  {
    a[j], a[j + 1] := a[j + 1], a[j];
  }

  /** The visible (non-hidden) networks of `s`, in order. */
  function Visible(s: seq<Ap>): (r: seq<Ap>)
    ensures |r| <= |s|
    ensures forall k :: 0 <= k < |r| ==> r[k] in s && r[k].ssid != []
    ensures forall x :: x in s && x.ssid != [] ==> x in r
  {
    if |s| == 0 then []
    else if s[0].ssid != [] then [s[0]] + Visible(s[1..])
    else Visible(s[1..])
  }

  /** The networks a response lists: the first `max` visible ones. */
  function Listed(s: seq<Ap>, max: nat): (r: seq<Ap>)
    ensures |r| == Min(max, |Visible(s)|)
    ensures r <= Visible(s)
  {
    Visible(s)[..Min(max, |Visible(s)|)]
  }

  lemma {:induction false} VisibleAppend(s: seq<Ap>, t: seq<Ap>)
    ensures Visible(s + t) == Visible(s) + Visible(t)
  {
    if |s| > 0 {
      assert (s + t)[0] == s[0];
      assert (s + t)[1..] == s[1..] + t;
      VisibleAppend(s[1..], t);
    } else {
      assert s + t == t;
    }
  }

  /** Filtering out hidden networks keeps a sorted list sorted. */
  lemma {:induction false} VisibleSorted(s: seq<Ap>)
    requires NonIncreasing(s)
    ensures NonIncreasing(Visible(s))
  {
    if |s| > 0 {
      var rest := s[1..];
      assert NonIncreasing(rest) by {
        forall p, q | 0 <= p < q < |rest|
          ensures rest[p].rssi >= rest[q].rssi
        {
          assert rest[p] == s[p + 1] && rest[q] == s[q + 1];
        }
      }
      VisibleSorted(rest);
      if s[0].ssid != [] {
        var v := Visible(rest);
        forall q | 0 <= q < |v|
          ensures s[0].rssi >= v[q].rssi
        {
          var k :| 0 <= k < |rest| && rest[k] == v[q];
          assert rest[k] == s[k + 1];
        }
        assert forall q :: 0 < q < |[s[0]] + v| ==> ([s[0]] + v)[q] == v[q - 1];
      }
    }
  }

  /**
   * The selection loop: walks the first `count` entries, listing visible
   * ones until `max` have been listed.
   */
  method SelectNetworks(a: array<Ap>, count: nat, max: nat) returns (r: seq<Ap>)
    requires count <= a.Length
    ensures r == Listed(a[..count], max)
  {
    r := [];
    var i := 0;
    while i < count && |r| < max
      invariant 0 <= i <= count
      invariant r == Visible(a[..i]) && |r| <= max
    {
      assert a[..i + 1] == a[..i] + [a[i]];
      VisibleAppend(a[..i], [a[i]]);
      if a[i].ssid != [] {
        r := r + [a[i]];
      }
      i := i + 1;
    }
    assert a[..count] == a[..i] + a[i..count];
    VisibleAppend(a[..i], a[i..count]);
  }

  /**
   * The devkit's list: the scan results sorted strongest first, then at
   * most two visible networks. The listed networks are the strongest
   * visible ones, in order.
   */
  method DevkitList(a: array<Ap>) returns (r: seq<Ap>)
    requires a.Length >= 1
    modifies a
    ensures multiset(a[..]) == multiset(old(a[..])) && NonIncreasing(a[..])
    ensures r == Listed(a[..], 2)
    ensures |r| <= 2 && NonIncreasing(r)
  {
    SortByRssi(a);
    r := SelectNetworks(a, a.Length, 2);
    assert a[..a.Length] == a[..];
    VisibleSorted(a[..]);
  }

  /** Capping the count at the number of entries changes nothing. */
  lemma ListedCap(s: seq<Ap>, max: nat)
    ensures Listed(s, Min(|s|, max)) == Listed(s, max)
  {}

  /** The object-detection board's list: at most five visible networks, in scan order. */
  method OdList(a: array<Ap>) returns (r: seq<Ap>)
    ensures r == Listed(a[..], 5)
    ensures |r| <= 5 && |r| <= a.Length
  {
    var max := if a.Length > 5 then 5 else a.Length;
    r := SelectNetworks(a, a.Length, max);
    assert a[..a.Length] == a[..];
    ListedCap(a[..], 5);
  }

  /** The largest BLE payload the object-detection board sends for a scan. */
  const MaxPayload := 240
  /** The transparent-channel header: flags and channel 0. */
  const Header: seq<byte> := [0, 0, 0, 0]
  /** The fixed reply when the list does not fit. */
  const TooMany: seq<byte> :=
    Ascii("{\"type\":\"wifi_list\",") + Ascii("\"networks\":[],") + Ascii("\"msg\":\"Too many networks\"}")

  /**
   * The BLE payload for a printed list `json`: the header and the list when
   * `json_len + 4` is at most 240, otherwise the header and the fixed
   * "Too many networks" reply. Either way it fits in 240 bytes.
   */
  function OdReply(json: seq<byte>): (r: seq<byte>)
    ensures |r| <= MaxPayload
    ensures |json| + 4 <= MaxPayload ==> r == Header + json
    ensures |json| + 4 > MaxPayload ==> r == Header + TooMany
  {
    if |json| + 4 > MaxPayload then Header + TooMany else Header + json
  }
}
