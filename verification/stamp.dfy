/** Copying the header template into the freshly allocated buffers of the
    first allocation, and the batch handed to the device in one loop
    iteration. A buffer is its byte contents; the pool that owns it is not
    modelled. */
module Stamp {
  import opened Bytes
  import opened Config

  /** Every buffer is long enough to take a header. */
  predicate Fits(buffers: seq<seq<byte>>)
  {
    forall i :: 0 <= i < |buffers| ==> |buffers[i]| >= HEADER_LEN
  }

  /** Copies the 42-byte template `t` over the first 42 bytes of `p`; a
      shorter buffer would make the slice copy panic, so it is refused. */
  function StampOne(p: seq<byte>, t: seq<byte>): (q: seq<byte>)
    requires |t| == HEADER_LEN <= |p|
    ensures |q| == |p|
    ensures q[..HEADER_LEN] == t
    ensures q[HEADER_LEN..] == p[HEADER_LEN..]
  {
    t + p[HEADER_LEN..]
  }

  /** The three facts above pin the stamped buffer down completely: any
      buffer of the same length that starts with `t` and agrees with `p`
      after the header is the stamped one. */
  lemma StampOneUnique(p: seq<byte>, t: seq<byte>, q: seq<byte>)
    requires |t| == HEADER_LEN <= |p|
    ensures (|q| == |p| && q[..HEADER_LEN] == t && q[HEADER_LEN..] == p[HEADER_LEN..])
            <==> q == StampOne(p, t)
  {
  }

  /** Stamping again with another template leaves only the last one: the
      payload is never touched. In particular stamping is idempotent. */
  lemma StampOneLastWins(p: seq<byte>, t1: seq<byte>, t2: seq<byte>)
    requires |t1| == HEADER_LEN == |t2| <= |p|
    ensures StampOne(StampOne(p, t1), t2) == StampOne(p, t2)
    ensures StampOne(StampOne(p, t2), t2) == StampOne(p, t2)
  {
  }

  /** The stamp loop over the buffers of the first allocation: the number of
      buffers and each one's length are kept, every header becomes the
      template and every payload stays as the pool left it. */
  function StampAll(buffers: seq<seq<byte>>, t: seq<byte>): (r: seq<seq<byte>>)
    requires |t| == HEADER_LEN && Fits(buffers)
    ensures |r| == |buffers|
    ensures forall i :: 0 <= i < |buffers| ==>
      && |r[i]| == |buffers[i]|
      && r[i][..HEADER_LEN] == t
      && r[i][HEADER_LEN..] == buffers[i][HEADER_LEN..]
    ensures forall i :: 0 <= i < |buffers| ==> r[i] == StampOne(buffers[i], t)
  {
    if |buffers| == 0 then []
    else [StampOne(buffers[0], t)] + StampAll(buffers[1..], t)
  }

  /** The batch submitted in one iteration: the stamped buffers of the first
      allocation `first` followed by the buffers of the refill, which are sent as
      the pool handed them out, without a header being written. */
  function Batch(first: seq<seq<byte>>, refill: seq<seq<byte>>, t: seq<byte>): (b: seq<seq<byte>>)
    requires |t| == HEADER_LEN && Fits(first)
    ensures |b| == |first| + |refill|
    ensures forall i :: 0 <= i < |first| ==> b[i] == StampOne(first[i], t)
    ensures b[|first|..] == refill
  {
    StampAll(first, t) + refill
  }
}
