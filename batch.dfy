/** The wave-size controller of `crawl` in crawler-proto/src/main.rs: the
    `Batch { state, size }` struct and the update run after every wave. */
module Batching {

  datatype BatchState =
    | Incrementing
    | Doubling
    | Tuning(min: nat, max: nat)
    | Stable(n: nat)

  /** A wave is shrunk when the batch is larger than eight and more than a
      quarter of its workers failed. */
  predicate Overloaded(size: nat, errorCount: nat, handlesLen: nat)
  {
    size > 8 && errorCount * 4 > handlesLen
  }

  /** The size the controller assigns after a wave. `size >> 1` on a `usize`
      is `size / 2` on a natural number. */
  function NextSize(state: BatchState, size: nat, errorCount: nat, handlesLen: nat): nat
  {
    if Overloaded(size, errorCount, handlesLen) then size / 2
    else if state == Doubling then size * 2
    else if state == Incrementing then size + 1
    else size
  }

  /** `worker_batch`, whose `size` the crawl loop overwrites after each wave. */
  class Batch {
    var state: BatchState
    var size: nat

    /** `Batch { state: BatchState::Incrementing, size: 1 }`. */
    constructor ()
      ensures state == Incrementing && size == 1
    {
      state := Incrementing;
      size := 1;
    }

    /** The update after a wave that dispatched `handlesLen` workers of which
        `errorCount` failed. The `Incrementing` arm also bumps `size` in
        place, but the final assignment of `new_size` overwrites that, so the
        size grows by one, not two. The state is never written. */
    method Adjust(errorCount: nat, handlesLen: nat)
      modifies this
      ensures state == old(state)
      ensures size == NextSize(old(state), old(size), errorCount, handlesLen)
    {
      var newSize: nat;
      if size > 8 && errorCount * 4 > handlesLen {
        newSize := size / 2;
      } else if state == Doubling {
        newSize := size * 2;
      } else if state == Incrementing {
        newSize := size + 1;
        size := size + 1;
      } else {
        newSize := size;
      }
      size := newSize;
    }
  }

  /** The rows of the controller's table: halve on overload whatever the
      state, otherwise double, add one, or keep the size. */
  lemma NextSizeTable(state: BatchState, size: nat, errorCount: nat, handlesLen: nat)
    ensures Overloaded(size, errorCount, handlesLen) ==>
      NextSize(state, size, errorCount, handlesLen) == size / 2 &&
      4 <= NextSize(state, size, errorCount, handlesLen) < size
    ensures !Overloaded(size, errorCount, handlesLen) && state == Doubling ==>
      NextSize(state, size, errorCount, handlesLen) == 2 * size
    ensures !Overloaded(size, errorCount, handlesLen) && state == Incrementing ==>
      NextSize(state, size, errorCount, handlesLen) == size + 1
    ensures !Overloaded(size, errorCount, handlesLen) && (state.Tuning? || state.Stable?) ==>
      NextSize(state, size, errorCount, handlesLen) == size
  {
  }

  /** One observed wave: how many workers it dispatched and how many failed. */
  datatype WaveStats = WaveStats(errorCount: nat, handlesLen: nat)

  /** The size after a run of waves, starting from `size` in `Incrementing`,
      the only state the crawl ever holds. */
  function SizeAfter(size: nat, waves: seq<WaveStats>): nat
    decreases |waves|
  {
    if |waves| == 0 then size
    else
      var w := waves[|waves| - 1];
      NextSize(Incrementing, SizeAfter(size, waves[..|waves| - 1]), w.errorCount, w.handlesLen)
  }

  /** Starting from one, the size never drops below one, whatever the errors:
      a shrink halves a size above eight and so leaves at least four. */
  lemma {:induction false} SizeStaysPositive(waves: seq<WaveStats>)
    ensures SizeAfter(1, waves) >= 1
    decreases |waves|
  {
    if |waves| > 0 {
      SizeStaysPositive(waves[..|waves| - 1]);
    }
  }

  /** While no wave has failures, the size ramps up by exactly one per wave. */
  lemma {:induction false} ErrorFreeRamp(size: nat, waves: seq<WaveStats>)
    requires forall i :: 0 <= i < |waves| ==> waves[i].errorCount == 0
    ensures SizeAfter(size, waves) == size + |waves|
    decreases |waves|
  {
    if |waves| > 0 {
      ErrorFreeRamp(size, waves[..|waves| - 1]);
    }
  }

  /** The size is never more than one above the size before the wave, so the
      ramp never doubles. */
  lemma {:induction false} GrowthAtMostOnePerWave(size: nat, waves: seq<WaveStats>)
    ensures SizeAfter(size, waves) <= size + |waves|
    decreases |waves|
  {
    if |waves| > 0 {
      GrowthAtMostOnePerWave(size, waves[..|waves| - 1]);
    }
  }
}
