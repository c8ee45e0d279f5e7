/**
 * The LED pixel device layer: the registry of pixel strip devices (one per
 * driver name), and each device's open/close lifecycle, its pixel count
 * and the pixel buffer of `color_num * pixel_num` 16-bit channel values.
 *
 * What the driver callbacks, the allocator and the RTOS mutex and
 * semaphore set-up report are parameters. The colour-type enumeration
 * bounds (`PIXEL_COLOR_TP_RGB`, `PIXEL_COLOR_TP_RGBCW`) come from a header
 * that is not part of this model and are parameters too.
 */
module Pixel {
  import opened Common

  function Pow2(k: nat): (r: nat)
    ensures r >= 1
  {
    if k == 0 then 1 else 2 * Pow2(k - 1)
  }

  /** The number of set bits of `v`. */
  function PopCount(v: nat): (r: nat)
    ensures r <= v
  {
    if v == 0 then 0 else v % 2 + PopCount(v / 2)
  }

  /** A value below `2^k` has at most `k` bits set. */
  lemma {:induction false} PopCountBound(v: nat, k: nat)
    requires v < Pow2(k)
    ensures PopCount(v) <= k
  {
    if v > 0 {
      assert k > 0;
      PopCountBound(v / 2, k - 1);
    }
  }

  /** Only zero has no bit set. */
  lemma PopCountZero(v: nat)
    ensures PopCount(v) == 0 <==> v == 0
  {
    if v > 0 && v % 2 == 0 {
      assert v / 2 > 0;
      PopCountZero(v / 2);
    }
  }

  /** `v >> k` */
  function Shr(v: nat, k: nat): (r: nat)
  {
    if k == 0 then v else Shr(v / 2, k - 1)
  }

  lemma {:induction false} ShrStep(v: nat, k: nat)
    ensures Shr(v, k + 1) == Shr(v, k) / 2
  {
    if k > 0 {
      ShrStep(v / 2, k - 1);
    }
  }

  lemma {:induction false} ShrGone(v: nat, k: nat)
    requires v < Pow2(k)
    ensures Shr(v, k) == 0
  {
    if k > 0 {
      ShrGone(v / 2, k - 1);
    }
  }

  /**
   * `__tdl_pixel_type_get`: the number of colour channels of a colour
   * type, counting bit `i` (`GET_BIT`) for `i` in 0..7.
   */
  method ColorCount(color: byte) returns (cnt: nat)
    ensures cnt == PopCount(color)
    ensures cnt <= 8
  {
    cnt := 0;
    for i := 0 to 8
      invariant cnt + PopCount(Shr(color, i)) == PopCount(color)
    {
      ShrStep(color, i);
      if Shr(color, i) % 2 != 0 {
        cnt := cnt + 1;
      }
    }
    assert Pow2(8) == 0x100;
    ShrGone(color, 8);
    PopCountBound(color, 8);
  }

  /** `PIXEL_DRIVER_INTFS_T`: which driver callbacks are present. */
  datatype Intfs = Intfs(hasOpen: bool, hasClose: bool, hasOutput: bool, hasConfig: bool)

  /** `PIXEL_ATTR_T` */
  datatype Attr = Attr(colorTp: byte, colorMaximum: nat, whiteColorControl: bool)

  /** `PIXEL_DEV_CONFIG_T` */
  datatype Config = Config(pixelNum: uint16, pixelResolution: uint32)

  /** The resolution used when the configuration gives none. */
  const DefaultResolution: uint32 := 1000

  /** `n` zeroed channel values. */
  function Zeros(n: nat): (r: seq<uint16>)
    ensures |r| == n && forall k :: 0 <= k < n ==> r[k] == 0
  {
    seq(n, _ => 0)
  }

  /** One registered device (`PIXEL_DEV_NODE_T`). */
  class PixelDev {
    const name: string
    const colorNum: nat
    const pixelColor: byte
    const intfs: Intfs
    var whiteColorControl: bool
    var isStart: bool
    var pixelNum: uint16
    var resolution: uint32
    /** `pixel_buffer`, none when NULL. */
    var buffer: Option<seq<uint16>>
    var bufferLen: nat

    /** The zero-filled node `__tdl_pixel_dev_register` sets up. */
    constructor (name: string, attr: Attr, intfs: Intfs)
      ensures this.name == name && this.intfs == intfs && pixelColor == attr.colorTp
      ensures colorNum == PopCount(attr.colorTp) && colorNum <= 8
      ensures whiteColorControl == attr.whiteColorControl
      ensures !isStart && pixelNum == 0 && resolution == 0 && buffer.None? && bufferLen == 0
    {
      this.name := name;
      var n := ColorCount(attr.colorTp);
      colorNum := n;
      pixelColor := attr.colorTp;
      this.intfs := intfs;
      whiteColorControl := attr.whiteColorControl;
      isStart := false;
      pixelNum := 0;
      resolution := 0;
      buffer := None;
      bufferLen := 0;
    }

    /** A started device holds a zeroed-at-open buffer of `color_num * pixel_num` values. */
    ghost predicate Started()
      reads this
    {
      isStart && buffer.Some? && bufferLen == colorNum * pixelNum && |buffer.value| == bufferLen
    }

    /**
     * `tdl_pixel_dev_open`: refuses a NULL configuration; does nothing once
     * started. Otherwise takes the pixel count and the resolution (1000 for
     * 0), opens the driver (`drvRt`) and allocates (`allocOk`) a zeroed
     * buffer of `color_num * pixel_num` values before marking the device
     * started.
     */
    method Open(config: Option<Config>, drvRt: Status, allocOk: bool) returns (rt: Status)
      modifies this`isStart, this`pixelNum, this`resolution, this`buffer, this`bufferLen
      ensures config.None? || old(isStart) ==>
        rt == (if config.None? then InvalidParm else Ok) && unchanged(this)
      ensures config.Some? && !old(isStart) ==>
        && pixelNum == config.value.pixelNum
        && resolution == (if config.value.pixelResolution != 0 then config.value.pixelResolution else DefaultResolution)
        && (rt == Ok <==> isStart)
        && (rt != Ok ==> rt == ComError)
        && (rt == Ok <==> (!intfs.hasOpen || drvRt == Ok) && allocOk)
        && (rt == Ok ==> Started() && buffer.value == Zeros(colorNum * pixelNum))
    {
      if config.None? {
        return InvalidParm;
      }
      if isStart {
        return Ok;
      }
      pixelNum := config.value.pixelNum;
      if config.value.pixelResolution != 0 {
        resolution := config.value.pixelResolution;
      } else {
        resolution := DefaultResolution;
      }
      if intfs.hasOpen && drvRt != Ok {
        return ComError;
      }
      bufferLen := colorNum * pixelNum;
      if !allocOk {
        buffer := None;
        return ComError;
      }
      buffer := Some(Zeros(bufferLen));
      isStart := true;
      rt := Ok;
    }

    /**
     * `tdl_pixel_dev_close`: fails on a device that is not started, and
     * with the driver's code when its close fails; otherwise stops the
     * device and drops its pixel count and buffer.
     */
    method Close(drvRt: Status) returns (rt: Status)
      modifies this`isStart, this`pixelNum, this`buffer, this`bufferLen
      ensures !old(isStart) ==> rt == ComError && unchanged(this)
      ensures old(isStart) && drvRt != Ok ==> rt == drvRt && unchanged(this)
      ensures old(isStart) && drvRt == Ok ==>
        rt == Ok && !isStart && pixelNum == 0 && buffer.None? && bufferLen == 0
    {
      if !isStart {
        return ComError;
      }
      if drvRt != Ok {
        return drvRt;
      }
      isStart := false;
      pixelNum := 0;
      buffer := None;
      bufferLen := 0;
      rt := Ok;
    }

    /**
     * `tdl_pixel_dev_refresh`: fails on a device that is not started;
     * otherwise hands the buffer and its length to the driver's output
     * (`drvRt`), when there is one. `sent` is what the driver was given.
     */
    method Refresh(drvRt: Status) returns (rt: Status, sent: Option<(Option<seq<uint16>>, nat)>)
      ensures !isStart ==> rt == ComError && sent.None?
      ensures isStart && !intfs.hasOutput ==> rt == Ok && sent.None?
      ensures isStart && intfs.hasOutput ==> rt == drvRt && sent == Some((buffer, bufferLen))
    {
      if !isStart {
        return ComError, None;
      }
      if intfs.hasOutput {
        return drvRt, Some((buffer, bufferLen));
      }
      return Ok, None;
    }

    /**
     * `__tdl_pixel_dev_num_set`: refuses 0 and does nothing for the current
     * count. Otherwise records the new count, then re-opens the driver
     * (`closeRt`, `openRt`) and replaces the buffer by a zeroed one of
     * `color_num * num` values (`allocOk`). The count is recorded even when
     * a later step fails.
     */
    method NumSet(num: uint16, closeRt: Status, openRt: Status, allocOk: bool) returns (rt: Status)
      modifies this`pixelNum, this`buffer, this`bufferLen
      ensures num == 0 ==> rt == InvalidParm && unchanged(this)
      ensures num != 0 && num == old(pixelNum) ==> rt == Ok && unchanged(this)
      ensures num != 0 && num != old(pixelNum) ==> pixelNum == num
      ensures num != 0 && num != old(pixelNum) && (closeRt != Ok || openRt != Ok) ==>
        rt == ComError && buffer == old(buffer) && bufferLen == old(bufferLen)
      ensures num != 0 && num != old(pixelNum) && closeRt == Ok && openRt == Ok && !allocOk ==>
        rt == MallocFailed && buffer.None? && bufferLen == old(bufferLen)
      ensures num != 0 && num != old(pixelNum) && closeRt == Ok && openRt == Ok && allocOk ==>
        rt == Ok && bufferLen == colorNum * num && buffer == Some(Zeros(colorNum * num))
      ensures isStart == old(isStart)
    {
      if num == 0 {
        return InvalidParm;
      }
      if pixelNum == num {
        return Ok;
      }
      pixelNum := num;
      if closeRt != Ok || openRt != Ok {
        return ComError;
      }
      buffer := None;
      if !allocOk {
        return MallocFailed;
      }
      bufferLen := colorNum * pixelNum;
      buffer := Some(Zeros(bufferLen));
      rt := Ok;
    }

    /**
     * `tdl_pixel_dev_config` with `PIXEL_DEV_CMD_SET_PIXEL_NUM`: the
     * `uint32_t` argument is passed on as a `uint16_t` and the outcome of
     * the set is dropped, so the command reports OK once the argument is
     * present.
     */
    method ConfigSetPixelNum(arg: Option<uint32>, closeRt: Status, openRt: Status, allocOk: bool) returns (rt: Status)
      modifies this`pixelNum, this`buffer, this`bufferLen
      ensures arg.None? ==> rt == InvalidParm && unchanged(this)
      ensures arg.Some? ==> rt == Ok
      ensures arg.Some? && (Trunc16(arg.value) == 0 || Trunc16(arg.value) == old(pixelNum)) ==> unchanged(this)
      ensures arg.Some? && Trunc16(arg.value) != 0 && Trunc16(arg.value) != old(pixelNum) ==> pixelNum == Trunc16(arg.value)
    {
      if arg.None? {
        return InvalidParm;
      }
      var _ := NumSet(Trunc16(arg.value), closeRt, openRt, allocOk);
      rt := Ok;
    }

    /** `PIXEL_DEV_CMD_GET_PIXEL_NUM` and `PIXEL_DEV_CMD_GET_RESOLUTION`: the recorded values. */
    method ConfigGet(arg: bool, wantResolution: bool) returns (rt: Status, value: Option<nat>)
      ensures !arg ==> rt == InvalidParm && value.None?
      ensures arg ==> rt == Ok && value == Some(if wantResolution then resolution as nat else pixelNum as nat)
    {
      if !arg {
        return InvalidParm, None;
      }
      rt := Ok;
      value := Some(if wantResolution then resolution as nat else pixelNum as nat);
    }
  }

  /** The index of the first device named `name`, if any. */
  function IndexOfName(devs: seq<PixelDev>, name: string): (r: Option<nat>)
    ensures r.None? <==> forall k :: 0 <= k < |devs| ==> devs[k].name != name
    ensures r.Some? ==> r.value < |devs| && devs[r.value].name == name
    ensures r.Some? ==> forall k :: 0 <= k < r.value ==> devs[k].name != name
  {
    if |devs| == 0 then None
    else if devs[0].name == name then Some(0)
    else
      var r := IndexOfName(devs[1..], name);
      assert forall k :: 0 < k < |devs| ==> devs[k] == devs[1..][k - 1];
      if r.Some? then Some(r.value + 1) else None
  }

  /**
   * The name a node keeps: `strncpy` copies at most `maxLen` characters
   * into the zero-filled node, so a longer name is cut.
   */
  function StoredName(name: string, maxLen: nat): (r: string)
    ensures |r| <= maxLen && r <= name
    ensures r == name <==> |name| <= maxLen
    ensures |name| > maxLen ==> |r| == maxLen
  {
    if |name| <= maxLen then name else name[..maxLen]
  }

  /**
   * No device shares a name shorter than `maxLen` with another. Only such a
   * name is surely the whole name it was registered under; a cut name can
   * repeat.
   */
  predicate UniqueShortNames(devs: seq<PixelDev>, maxLen: nat)
  {
    forall i, j :: 0 <= i < j < |devs| && |devs[i].name| < maxLen ==> devs[i].name != devs[j].name
  }

  /** A device whose name is shorter than `maxLen` is the one found under that name. */
  lemma FindsOwnName(devs: seq<PixelDev>, maxLen: nat, k: nat)
    requires UniqueShortNames(devs, maxLen) && k < |devs| && |devs[k].name| < maxLen
    ensures IndexOfName(devs, devs[k].name) == Some(k)
  {
    var r := IndexOfName(devs, devs[k].name);
    assert r.Some?;
  }

  /** The device list `g_pixel_dev_list_head`, head first. */
  class Registry {
    var devs: seq<PixelDev>
    /** `PIXEL_DEV_NAME_MAX_LEN`, defined in a header that is not part of this model. */
    const maxLen: nat

    ghost predicate Valid()
      reads this
    {
      (forall k :: 0 <= k < |devs| ==> |devs[k].name| <= maxLen) && UniqueShortNames(devs, maxLen)
    }

    constructor (maxLen: nat)
      ensures Valid() && devs == [] && this.maxLen == maxLen
    {
      devs := [];
      this.maxLen := maxLen;
    }

    /** `tdl_pixel_dev_find` (through `__tdl_pixel_dev_node_find`): the first device with that name. */
    method Find(name: Option<string>) returns (rt: Status, dev: Option<PixelDev>)
      ensures name.None? ==> rt == ComError && dev.None?
      ensures name.Some? ==>
        match IndexOfName(devs, name.value)
        case None => rt == ComError && dev.None?
        case Some(k) => rt == Ok && dev == Some(devs[k])
    {
      if name.None? {
        return ComError, None;
      }
      var i := 0;
      while i < |devs|
        invariant 0 <= i <= |devs|
        invariant forall k :: 0 <= k < i ==> devs[k].name != name.value
      {
        if devs[i].name == name.value {
          assert IndexOfName(devs, name.value) == Some(i);
          return Ok, Some(devs[i]);
        }
        i := i + 1;
      }
      return ComError, None;
    }

    /**
     * `tdl_pixel_driver_register`: refuses a NULL name or interface table,
     * a driver without open, close or output, and a colour type outside
     * `[tpRgb, tpRgbcw]`; then `__tdl_pixel_dev_register` refuses a name
     * already registered and any failing allocation (`nodeAlloc`,
     * `intfsAlloc`) or RTOS set-up (`mutexRt`, `semRt`), and otherwise
     * appends a new stopped device at the tail. The name is compared in
     * full but stored cut to `maxLen` characters, so a longer name is never
     * found again and can be registered any number of times.
     */
    method DriverRegister(name: Option<string>, intfs: Option<Intfs>, attr: Attr, tpRgb: byte, tpRgbcw: byte,
                          nodeAlloc: bool, intfsAlloc: bool, mutexRt: Status, semRt: Status)
      returns (rt: Status)
      requires Valid()
      modifies this
      ensures Valid()
      ensures rt != Ok ==> devs == old(devs)
      ensures name.None? || intfs.None? ==> rt == InvalidParm
      ensures name.Some? && intfs.Some? && !(intfs.value.hasOpen && intfs.value.hasClose && intfs.value.hasOutput) ==>
        rt == InvalidParm
      ensures !(tpRgb <= attr.colorTp <= tpRgbcw) ==> rt == InvalidParm
      ensures rt == Ok <==>
        && name.Some? && intfs.Some? && intfs.value.hasOpen && intfs.value.hasClose && intfs.value.hasOutput
        && tpRgb <= attr.colorTp <= tpRgbcw
        && IndexOfName(old(devs), name.value).None?
        && nodeAlloc && intfsAlloc && mutexRt == Ok && semRt == Ok
      ensures rt == Ok ==>
        && |devs| == |old(devs)| + 1 && devs[..|old(devs)|] == old(devs)
        && fresh(devs[|old(devs)|])
        && devs[|old(devs)|].name == StoredName(name.value, maxLen) && !devs[|old(devs)|].isStart
        && devs[|old(devs)|].colorNum == PopCount(attr.colorTp)
      ensures rt == Ok ==> (IndexOfName(devs, name.value).Some? <==> |name.value| <= maxLen)
    {
      if name.None? || intfs.None? {
        return InvalidParm;
      }
      if !intfs.value.hasOpen || !intfs.value.hasClose || !intfs.value.hasOutput {
        return InvalidParm;
      }
      if attr.colorTp > tpRgbcw || attr.colorTp < tpRgb {
        return InvalidParm;
      }
      var found, _ := Find(name);
      if found == Ok {
        return ComError;
      }
      if !nodeAlloc || !intfsAlloc {
        return MallocFailed;
      }
      if mutexRt != Ok {
        return mutexRt;
      }
      if semRt != Ok {
        return semRt;
      }
      var d := new PixelDev(StoredName(name.value, maxLen), attr, intfs.value);
      devs := devs + [d];
      rt := Ok;
    }
  }
}
