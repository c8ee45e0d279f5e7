/**
 * Machine-width integer ranges, C strings and result codes shared by every
 * component of the firmware and of the companion server.
 */
module Common {

  /** An unsigned 8-bit value (`uint8_t`, Go `byte`). */
  type byte = x: int | 0 <= x < 0x100

  /** A signed 16-bit value (`int16_t`). */
  type int16 = x: int | -0x8000 <= x < 0x8000

  /** An unsigned 16-bit value (`uint16_t`). */
  type uint16 = x: int | 0 <= x < 0x1_0000

  /** An unsigned 32-bit value (`uint32_t`). */
  type uint32 = x: int | 0 <= x < 0x1_0000_0000

  /** The value an assignment to an `int16_t` keeps of `x` on a two's-complement target. */
  function Wrap16(x: int): (r: int16)
    ensures (r - x) % 0x1_0000 == 0
    ensures -0x8000 <= x < 0x8000 ==> r == x
  {
    (x + 0x8000) % 0x1_0000 - 0x8000
  }

  /** The value a conversion to `uint16_t` keeps of `x`. */
  function Trunc16(x: int): (r: uint16)
    ensures (r - x) % 0x1_0000 == 0
    ensures 0 <= x < 0x1_0000 ==> r == x
  {
    x % 0x1_0000
  }

  /** The value a conversion to `uint8_t` keeps of `x`. */
  function Trunc8(x: int): (r: byte)
    ensures (r - x) % 0x100 == 0
    ensures 0 <= x < 0x100 ==> r == x
  {
    x % 0x100
  }

  /** The value a `uint32_t` computation yields for the mathematical value `x`. */
  function Trunc32(x: int): (r: uint32)
    ensures (r - x) % 0x1_0000_0000 == 0
    ensures 0 <= x < 0x1_0000_0000 ==> r == x
    ensures -0x1_0000_0000 <= x < 0 ==> r == x + 0x1_0000_0000
  {
    x % 0x1_0000_0000
  }

  function Min(a: int, b: int): (m: int)
    ensures m <= a && m <= b && (m == a || m == b)
  {
    if a <= b then a else b
  }

  /** The last `n` elements of `s`. */
  function Last<T>(s: seq<T>, n: nat): (r: seq<T>)
    requires n <= |s|
    ensures |r| == n
    ensures forall i :: 0 <= i < n ==> r[i] == s[|s| - n + i]
  {
    s[|s| - n..]
  }

  /** A C string: its bytes up to, not including, the terminating NUL. */
  type CString = s: seq<byte> | forall i :: 0 <= i < |s| ==> s[i] != 0

  /** The C string a buffer holds once copied: its bytes up to the first NUL. */
  function UpToNul(v: seq<byte>): (r: CString)
    ensures |r| <= |v| && r == v[..|r|]
    ensures |r| < |v| ==> v[|r|] == 0
  {
    if |v| == 0 || v[0] == 0 then [] else [v[0]] + UpToNul(v[1..])
  }

  /** `strncmp(s, prefix, |prefix|) == 0` on a NUL-terminated `s`. */
  predicate HasPrefix(s: seq<byte>, prefix: seq<byte>)
  {
    |prefix| <= |s| && s[..|prefix|] == prefix
  }

  /** The ASCII bytes of a character string literal. */
  function Ascii(s: string): (r: CString)
    requires forall i :: 0 <= i < |s| ==> 0 < s[i] as int < 0x80
    ensures |r| == |s|
  {
    if |s| == 0 then [] else [s[0] as int] + Ascii(s[1..])
  }

  datatype Option<T> = None | Some(value: T)

  /** Return codes of the firmware (`OPERATE_RET` values) that the modelled code tells apart. */
  datatype Status =
    | Ok
    | InvalidParm
    | ComError
    | NotFound
    | MallocFailed
    | ResourceNotReady
    | NotSupported
    | SockErr
    /** Any other error code propagated unchanged from a call the model does not see. */
    | Failed(code: int)
}
