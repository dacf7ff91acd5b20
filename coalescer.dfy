/** The "latest wins" ingestion slot both data hooks use: event callbacks overwrite a single
    pending sample and count arrivals; the animation-frame tick drains the slot; the one-second
    interval publishes the arrival count and zeroes it. */
module Coalescer {
  import opened Wrappers

  /** The hook's two refs: the pending sample and the arrival counter. */
  datatype Slot<T> = Slot(pending: Option<T>, arrivals: nat)

  function EmptySlot<T>(): Slot<T> {
    Slot(None, 0)
  }

  /** An event callback: the sample replaces whatever was pending, and one more arrival. */
  function Arrive<T>(s: Slot<T>, x: T): Slot<T> {
    Slot(Some(x), s.arrivals + 1)
  }

  /** A run of event callbacks, in order. */
  function ArriveAll<T>(s: Slot<T>, xs: seq<T>): Slot<T>
    decreases |xs|
  {
    if xs == [] then s else ArriveAll(Arrive(s, xs[0]), xs[1..])
  }

  /** A tick: the pending sample, if any, is handed to the store and the slot emptied; the
      arrival counter is not touched. */
  function Drain<T>(s: Slot<T>): (Slot<T>, Option<T>) {
    (Slot(None, s.arrivals), s.pending)
  }

  /** The rate interval: the arrival count is published and restarted from zero; the pending
      sample is not touched. */
  function Publish<T>(s: Slot<T>): (Slot<T>, nat) {
    (Slot(s.pending, 0), s.arrivals)
  }

  /** Any burst of events leaves only its last sample pending and adds its length to the
      counter, whatever the slot held before. */
  lemma {:induction false} ArrivalsCoalesce<T>(s: Slot<T>, xs: seq<T>)
    requires xs != []
    ensures ArriveAll(s, xs) == Slot(Some(xs[|xs| - 1]), s.arrivals + |xs|)
    decreases |xs|
  {
    if |xs| > 1 {
      ArrivalsCoalesce(Arrive(s, xs[0]), xs[1..]);
    }
  }

  /** Between two ticks, a burst of k events reaches the store as exactly one sample, the last
      one, and a second tick with no event in between hands nothing over. */
  lemma BurstDrainsOnce<T>(s: Slot<T>, xs: seq<T>)
    requires xs != []
    ensures Drain(ArriveAll(s, xs)).1 == Some(xs[|xs| - 1])
    ensures Drain(Drain(ArriveAll(s, xs)).0).1 == None
    ensures Drain(ArriveAll(s, xs)).0.arrivals == s.arrivals + |xs|
  {
    ArrivalsCoalesce(s, xs);
  }

  /** The published rate counts arrivals, not drains: ticks in between change nothing about
      the number the interval publishes. */
  lemma PublishCountsArrivals<T>(xs: seq<T>, ys: seq<T>)
    ensures Publish(ArriveAll(Drain(ArriveAll(EmptySlot(), xs)).0, ys)).1 == |xs| + |ys|
    ensures Publish(Publish(ArriveAll(EmptySlot<T>(), xs)).0).1 == 0
  {
    ArrivalCount(EmptySlot(), xs);
    ArrivalCount(Drain(ArriveAll(EmptySlot(), xs)).0, ys);
    ArrivalCount(EmptySlot(), xs);
  }

  lemma {:induction false} ArrivalCount<T>(s: Slot<T>, xs: seq<T>)
    ensures ArriveAll(s, xs).arrivals == s.arrivals + |xs|
    ensures xs == [] ==> ArriveAll(s, xs) == s
    decreases |xs|
  {
    if xs != [] {
      ArrivalCount(Arrive(s, xs[0]), xs[1..]);
    }
  }
}
