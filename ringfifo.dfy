/**
 * The platform's byte ring buffer (`tuya_ringbuf`) as the mic pipelines use
 * it: a bounded FIFO created with one of two overflow policies. Its
 * implementation belongs to the platform and is not part of this model; the
 * class states only the FIFO behaviour the callers rely on.
 */
module RingFifo {
  import opened Common

  /** `OVERFLOW_PSRAM_COVERAGE_TYPE` overwrites the oldest bytes; `OVERFLOW_PSRAM_STOP_TYPE` refuses what does not fit. */
  datatype Overflow = Coverage | Stop

  class Fifo {
    const capacity: nat
    const policy: Overflow
    /** Buffered bytes, oldest first. */
    var contents: seq<byte>

    ghost predicate Valid()
      reads this
    {
      0 < capacity && |contents| <= capacity
    }

    /** `tuya_ring_buff_create` */
    constructor (capacity: nat, policy: Overflow)
      requires capacity > 0
      ensures Valid() && contents == []
      ensures this.capacity == capacity && this.policy == policy
    {
      this.capacity := capacity;
      this.policy := policy;
      contents := [];
    }

    /** `tuya_ring_buff_used_size_get` */
    function Used(): (n: nat)
      reads this
      ensures n == |contents|
    {
      |contents|
    }

    /**
     * `tuya_ring_buff_write`. A coverage ring accepts every byte and keeps the
     * newest `capacity`; a stop ring accepts only as many as there is room for.
     */
    method Write(data: seq<byte>) returns (written: nat)
      requires Valid()
      modifies this
      ensures Valid()
      ensures policy == Coverage ==>
        written == |data| &&
        contents == Last(old(contents) + data, Min(|old(contents)| + |data|, capacity))
      ensures policy == Stop ==>
        written == Min(|data|, capacity - |old(contents)|) &&
        contents == old(contents) + data[..written]
    {
      if policy == Coverage {
        written := |data|;
        contents := Last(contents + data, Min(|contents| + |data|, capacity));
      } else {
        written := Min(|data|, capacity - |contents|);
        contents := contents + data[..written];
      }
    }

    /** `tuya_ring_buff_read`: removes and returns up to `n` of the oldest bytes. */
    method Read(n: nat) returns (out: seq<byte>)
      requires Valid()
      modifies this
      ensures Valid()
      ensures out == old(contents)[..Min(n, |old(contents)|)]
      ensures contents == old(contents)[|out|..]
    {
      out := contents[..Min(n, |contents|)];
      contents := contents[|out|..];
    }

    /** `tuya_ring_buff_reset` */
    method Reset()
      requires Valid()
      modifies this
      ensures Valid() && contents == []
    {
      contents := [];
    }
  }
}
