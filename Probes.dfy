// Sequences of probe outcomes that drive the health state machines: each
// element is one cycle's answer to "did any target answer".

module Probes {

  /** `k` failures in a row. */
  function Failures(k: nat): (r: seq<bool>)
    ensures |r| == k && forall i :: 0 <= i < k ==> !r[i]
  {
    seq(k, _ => false)
  }

  /** `k` successes in a row. */
  function Successes(k: nat): (r: seq<bool>)
    ensures |r| == k && forall i :: 0 <= i < k ==> r[i]
  {
    seq(k, _ => true)
  }
}
