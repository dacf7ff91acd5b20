/** `useImuData`: IMU samples are coalesced into one pending slot; the animation-frame tick
    pushes the pending sample into the store and counts it there; the one-second interval
    publishes the hook's own arrival count as the rate. */
module ImuIngest {
  import opened Wrappers
  import opened Bounded
  import opened Coalescer
  import opened Hipnuc
  import ImuStore

  const IMU_EVENT: string := "imu-data"

  class ImuIngest {
    const store: ImuStore.ImuStore
    /** `pendingData` */
    var pending: Option<Hi91Data>
    /** `frameCountRef` */
    var arrivals: nat
    /** The "imu-data" subscription is live. */
    var listening: bool
    /** Event names whose unsubscribe function has been called. */
    var unsubscribed: seq<string>
    var frameRequested: bool
    var intervalRunning: bool

    function CurrentSlot(): Slot<Hi91Data>
      reads this
    {
      Slot(pending, arrivals)
    }

    /** Mounting the effect: the listener, the first frame request and the interval. */
    constructor (s: ImuStore.ImuStore)
      ensures store == s && CurrentSlot() == EmptySlot()
      ensures listening && unsubscribed == []
      ensures frameRequested && intervalRunning
    {
      store := s;
      pending, arrivals := None, 0;
      listening, unsubscribed := true, [];
      frameRequested, intervalRunning := true, true;
    }

    /** "imu-data": overwrite the slot and count the arrival; the store is not touched. */
    method OnImuData(data: Hi91Data)
      modifies this
      ensures CurrentSlot() == Arrive(old(CurrentSlot()), data)
      ensures listening == old(listening) && unsubscribed == old(unsubscribed)
      ensures frameRequested == old(frameRequested) && intervalRunning == old(intervalRunning)
    {
      pending := Some(data);
      arrivals := arrivals + 1;
    }

    /** The animation-frame tick at clock reading `now`: a pending sample is pushed, then the
        store's frame counter goes up by one, then the slot is emptied; an empty slot leaves the
        store as it was. */
    method Tick(now: int)
      requires frameRequested
      requires store.Valid()
      modifies this, store
      ensures store.Valid()
      ensures CurrentSlot() == Drain(old(CurrentSlot())).0
      ensures match Drain(old(CurrentSlot())).1
        case None => store.State() == old(store.State())
        case Some(d) => store.State() == old(store.State()).(latest := Some(d),
          history := PushCapped(old(store.history), d, MAX_HISTORY),
          timestamps := PushCapped(old(store.timestamps), now, MAX_HISTORY),
          frameCount := old(store.frameCount) + 1)
      ensures frameRequested
      ensures listening == old(listening) && unsubscribed == old(unsubscribed) && intervalRunning == old(intervalRunning)
    {
      if pending.Some? {
        store.PushData(pending.value, now);
        store.IncrementFrameCount();
        pending := None;
      }
      frameRequested := true;
    }

    /** The one-second interval: the hook's arrival count becomes the store's fps (which also
        zeroes the store's frame counter) and restarts from zero. */
    method FpsInterval()
      requires intervalRunning
      modifies this, store
      ensures CurrentSlot() == Publish(old(CurrentSlot())).0
      ensures store.State() == old(store.State()).(fps := Publish(old(CurrentSlot())).1, frameCount := 0)
      ensures listening == old(listening) && unsubscribed == old(unsubscribed)
      ensures frameRequested == old(frameRequested) && intervalRunning == old(intervalRunning)
    {
      store.SetFps(arrivals);
      arrivals := 0;
    }

    /** The effect's cleanup: unsubscribe, cancel the frame request, clear the interval. */
    method Teardown()
      modifies this
      ensures unsubscribed == old(unsubscribed) + [IMU_EVENT] && !listening
      ensures !frameRequested && !intervalRunning
      ensures CurrentSlot() == old(CurrentSlot())
    {
      unsubscribed := unsubscribed + [IMU_EVENT];
      listening := false;
      frameRequested, intervalRunning := false, false;
    }
  }
}
