/**
 * The firmware's G.711 mu-law codec: a per-sample encoder from 16-bit PCM to
 * one byte, the standard per-byte decoder, and the two buffer loops built on
 * them.
 *
 * The decoder is the standard one. The encoder is not: it applies the 14-bit
 * segment table to 16-bit magnitudes (biased by 132, not shifted), so only
 * segments 2 to 7 and saturation are reachable and the decoded value is not
 * close to the input. The lemmas below prove what does hold: sign behaviour,
 * saturation, bounds and the symmetry of the decoder.
 */
module G711 {
  import opened Common

  const Bias := 0x84
  const Clip := 32635
  /** Upper bound of each of the eight segments (`seg_end`). */
  const SegEnd: seq<int> := [0x3F, 0x7F, 0xFF, 0x1FF, 0x3FF, 0x7FF, 0xFFF, 0x1FFF]

  /** Powers of two as far as the encoder shifts (at most 7 + 3 bits). */
  const Pow2: seq<nat> := [1, 2, 4, 8, 16, 32, 64, 128, 256, 512, 1024]

  /** The index of the first entry of `table` that is at least `val`, or `|table|` if none is. */
  function FirstAtLeast(val: int, table: seq<int>): (i: nat)
    ensures i <= |table|
    ensures forall j :: 0 <= j < i ==> table[j] < val
    ensures i < |table| ==> val <= table[i]
  {
    if |table| == 0 then 0
    else if val <= table[0] then 0
    else 1 + FirstAtLeast(val, table[1..])
  }

  /** The three facts above determine the index: any index with them is `FirstAtLeast`. */
  lemma FirstAtLeastUnique(val: int, table: seq<int>, i: nat)
    requires i <= |table|
    requires forall j :: 0 <= j < i ==> table[j] < val
    requires i < |table| ==> val <= table[i]
    ensures i == FirstAtLeast(val, table)
  {
  }

  /** `search`: a linear scan for the segment holding `val`. */
  method Search(val: int, table: seq<int>) returns (i: nat)
    ensures i == FirstAtLeast(val, table)
  {
    i := 0;
    while i < |table|
      invariant i <= |table|
      invariant forall j :: 0 <= j < i ==> table[j] < val
    {
      if val <= table[i] {
        FirstAtLeastUnique(val, table, i);
        return;
      }
      i := i + 1;
    }
    FirstAtLeastUnique(val, table, i);
  }

  function Segment(biased: int): (seg: nat)
    ensures seg <= 8
  {
    FirstAtLeast(biased, SegEnd)
  }

  /**
   * `uval ^ mask` for `uval < 0x80`: XOR with 0xFF complements all eight bits,
   * XOR with 0x7F (a negative sample) the low seven.
   */
  function ApplyMask(uval: int, negative: bool): (r: byte)
    requires 0 <= uval < 0x80
    ensures negative <==> r < 0x80
  {
    if negative then 0x7F - uval else 0xFF - uval
  }

  /** The magnitude the encoder works on: `-pcm` kept in an `int16_t`, clipped, then biased. */
  function Biased(pcm: int16): (v: int)
  {
    var mag := if pcm < 0 then Wrap16(-(pcm as int)) else pcm;
    var clipped := if mag > Clip then Clip else mag;
    Wrap16(clipped + Bias)
  }

  /**
   * `g711_linear_to_ulaw`. The right shift of the possibly negative `int16_t`
   * is arithmetic, which is floor division by a power of two; `& 0x0F` keeps
   * the residue modulo 16 (Dafny's `/` and `%` by a positive divisor are
   * exactly these).
   */
  function LinearToUlaw(pcm: int16): (u: byte)
    ensures 0 <= pcm ==> u >= 0x80
    ensures -0x8000 < pcm < 0 ==> u < 0x80
  {
    var v := Biased(pcm);
    var seg := Segment(v);
    if seg >= 8 then ApplyMask(0x7F, pcm < 0)
    else ApplyMask(seg * 16 + (v / Pow2[seg + 3]) % 16, pcm < 0)
  }

  /** `g711_ulaw_to_linear`: complement, rebuild the biased magnitude, remove the bias. */
  function UlawToLinear(b: byte): (r: int16)
    ensures -32124 <= r <= 32124
  {
    var u := 0xFF - b;                  // ~ulaw
    var t := Magnitude(u % 0x80);
    if u >= 0x80 then Bias - t else t - Bias
  }

  /** `((u & 0x0F) << 3) + 0x84` shifted left by the segment `(u & 0x70) >> 4`. */
  function Magnitude(c: int): (t: int)
    requires 0 <= c < 0x80
    ensures Bias <= t <= 252 * 128
  {
    var seg := c / 16;
    var t0 := (c % 16) * 8 + Bias;
    assert Pow2[seg] <= 128;
    MulBound(t0, Pow2[seg], 252, 128);
    t0 * Pow2[seg]
  }

  lemma MulBound(a: nat, b: nat, x: nat, y: nat)
    requires a <= x && b <= y
    ensures a * b <= x * y
  {}

  // ---------------------------------------------------------------------------
  // Encoder properties
  // ---------------------------------------------------------------------------

  /** Every sample above the most negative one has a biased magnitude of at least 132. */
  lemma BiasedRange(pcm: int16)
    requires pcm > -0x8000
    ensures Bias <= Biased(pcm) <= Clip + Bias
  {}

  /** Saturation: when the biased magnitude passes the last segment the encoder returns `0x7F ^ mask`. */
  lemma EncodeSaturates(pcm: int16)
    requires pcm > -0x8000
    requires Biased(pcm) > 0x1FFF
    ensures LinearToUlaw(pcm) == (if pcm < 0 then 0x00 else 0x80)
  {
    BiasedRange(pcm);
    assert Segment(Biased(pcm)) == 8;
  }

  /**
   * Below saturation the segment field lies in 2..7: the smallest biased
   * magnitude, 132, already exceeds `seg_end[1]`.
   */
  lemma EncodeSegmentRange(pcm: int16)
    requires pcm > -0x8000
    ensures Biased(pcm) <= 0x1FFF ==> 2 <= Segment(Biased(pcm)) <= 7
    ensures Biased(pcm) > 0x1FFF <==> Segment(Biased(pcm)) == 8
  {
    BiasedRange(pcm);
    var v := Biased(pcm);
    var s := Segment(v);
    assert SegEnd[0] < v && SegEnd[1] < v;
    if s < 8 {
      assert v <= SegEnd[s] <= 0x1FFF;
    } else {
      assert SegEnd[7] < v;
    }
  }

  /**
   * Below saturation the encoder returns the sign mask applied to the segment
   * (2..7) in bits 4..6 and a 4-bit mantissa; at saturation the pre-mask value
   * is 0x7F, segment 7.
   */
  lemma EncodeFields(pcm: int16) returns (x: int)
    requires pcm > -0x8000
    ensures 0 <= x < 0x80 && 2 <= x / 16 <= 7
    ensures LinearToUlaw(pcm) == ApplyMask(x, pcm < 0)
  {
    EncodeSegmentRange(pcm);
    var v := Biased(pcm);
    var seg := Segment(v);
    if seg >= 8 {
      x := 0x7F;
    } else {
      x := seg * 16 + (v / Pow2[seg + 3]) % 16;
    }
  }

  /** Decoding a masked value: the mask picks the sign, the low seven bits the magnitude. */
  lemma DecodeMasked(x: int, negative: bool)
    requires 0 <= x < 0x80
    ensures UlawToLinear(ApplyMask(x, negative)) == if negative then Bias - Magnitude(x) else Magnitude(x) - Bias
  {
    var u := 0xFF - ApplyMask(x, negative);
    if negative {
      assert u == 0x80 + x && u % 0x80 == x;
    } else {
      assert u == x && u % 0x80 == x;
    }
  }

  /** The encoder keeps the sign: decoding an encoded sample gives a value of the same sign, never zero. */
  lemma SignRoundTrip(pcm: int16)
    requires pcm > -0x8000
    ensures pcm >= 0 ==> UlawToLinear(LinearToUlaw(pcm)) > 0
    ensures pcm < 0 ==> UlawToLinear(LinearToUlaw(pcm)) < 0
  {
    var x := EncodeFields(pcm);
    DecodeMasked(x, pcm < 0);
    MagnitudeAboveBias(x);
  }

  lemma MagnitudeAboveBias(c: int)
    requires 0 <= c < 0x80 && c / 16 >= 2
    ensures Magnitude(c) > Bias
  {
    assert Pow2[c / 16] >= 4;
  }

  /** Zero encodes to 0xDB, which decodes to 524. */
  lemma EncodeZero()
    ensures LinearToUlaw(0) == 0xDB
    ensures UlawToLinear(0xDB) == 524
  {
    assert Biased(0) == 132;
    assert Segment(132) == 2 by {
      FirstAtLeastUnique(132, SegEnd, 2);
    }
  }

  /** The encoder is coarse: 1000 comes back as 5116. */
  lemma EncodeThousand()
    ensures LinearToUlaw(1000) == 0xAB
    ensures UlawToLinear(0xAB) == 5116
  {
    assert Biased(1000) == 1132;
    assert Segment(1132) == 5 by {
      FirstAtLeastUnique(1132, SegEnd, 5);
    }
  }

  /**
   * The most negative sample: `-pcm_val` does not fit in an `int16_t` and
   * stays -32768, the encoder returns 0x7F and that decodes to 0, so the sign
   * is lost.
   */
  lemma EncodeMostNegative()
    ensures Biased(-0x8000) == -32636
    ensures LinearToUlaw(-0x8000) == 0x7F
    ensures UlawToLinear(0x7F) == 0
  {
    assert Segment(-32636) == 0 by {
      FirstAtLeastUnique(-32636, SegEnd, 0);
    }
  }

  // ---------------------------------------------------------------------------
  // Decoder properties
  // ---------------------------------------------------------------------------

  /** Flipping the sign bit negates the decoded value. */
  lemma DecodeOddSymmetric(b: byte)
    ensures UlawToLinear(if b < 0x80 then b + 0x80 else b - 0x80) == -UlawToLinear(b)
  {
    var f := if b < 0x80 then b + 0x80 else b - 0x80;
    var u, v := 0xFF - b, 0xFF - f;
    if b < 0x80 {
      assert u == v + 0x80 && u % 0x80 == v % 0x80 == v;
    } else {
      assert v == u + 0x80 && u % 0x80 == v % 0x80 == u;
    }
  }

  lemma DecodeEndpoints()
    ensures UlawToLinear(0xFF) == 0 && UlawToLinear(0x7F) == 0
    ensures UlawToLinear(0x80) == 32124 && UlawToLinear(0x00) == -32124
  {}

  /** One step up in the complemented code gives a strictly larger magnitude, also across a segment boundary. */
  lemma MagnitudeStep(c: int)
    requires 0 <= c < 0x7F
    ensures Magnitude(c) < Magnitude(c + 1)
  {
    var s := c / 16;
    if c % 16 == 15 {
      assert (c + 1) / 16 == s + 1 && (c + 1) % 16 == 0;
      assert Pow2[s + 1] == 2 * Pow2[s];
    } else {
      assert (c + 1) / 16 == s && (c + 1) % 16 == c % 16 + 1;
    }
  }

  lemma {:induction false} MagnitudeIncreasing(c: int, d: int)
    requires 0 <= c < d < 0x80
    ensures Magnitude(c) < Magnitude(d)
    decreases d - c
  {
    MagnitudeStep(c);
    if c + 1 < d {
      MagnitudeIncreasing(c + 1, d);
    }
  }

  /** Over the positive half 0x80..0xFF the decoder is strictly decreasing, from 32124 down to 0. */
  lemma DecodeDecreasing(b1: byte, b2: byte)
    requires 0x80 <= b1 < b2
    ensures UlawToLinear(b1) > UlawToLinear(b2) >= 0
  {
    PositiveHalf(b1);
    PositiveHalf(b2);
    MagnitudeIncreasing(0xFF - b2, 0xFF - b1);
  }

  lemma PositiveHalf(b: byte)
    requires 0x80 <= b
    ensures UlawToLinear(b) == Magnitude(0xFF - b) - Bias
  {
    assert (0xFF - b) % 0x80 == 0xFF - b;
  }

  // ---------------------------------------------------------------------------
  // Buffer loops
  // ---------------------------------------------------------------------------

  /** `g711_encode_ulaw`: encodes the first `len` samples into `output` and returns `len`. */
  method EncodeUlaw(input: array<int16>, len: nat, output: array<byte>) returns (n: nat)
    requires len <= input.Length && len <= output.Length
    modifies output
    ensures n == len
    ensures forall i :: 0 <= i < len ==> output[i] == LinearToUlaw(input[i])
    ensures output[len..] == old(output[len..])
  {
    var i := 0;
    while i < len
      invariant i <= len
      invariant forall k :: 0 <= k < i ==> output[k] == LinearToUlaw(input[k])
      invariant output[len..] == old(output[len..])
    {
      output[i] := LinearToUlaw(input[i]);
      i := i + 1;
    }
    n := len;
  }

  /** `g711_decode_ulaw`: decodes the first `len` bytes into `output` and returns `len`. */
  method DecodeUlaw(input: array<byte>, len: nat, output: array<int16>) returns (n: nat)
    requires len <= input.Length && len <= output.Length
    modifies output
    ensures n == len
    ensures forall i :: 0 <= i < len ==> output[i] == UlawToLinear(input[i])
    ensures output[len..] == old(output[len..])
  {
    var i := 0;
    while i < len
      invariant i <= len
      invariant forall k :: 0 <= k < i ==> output[k] == UlawToLinear(input[k])
      invariant output[len..] == old(output[len..])
    {
      output[i] := UlawToLinear(input[i]);
      i := i + 1;
    }
    n := len;
  }
}
