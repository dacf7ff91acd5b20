/** `useMotorData`: how gateway events reach the motor store. Feedback is coalesced into one
    pending slot that the animation-frame tick drains; every other event goes straight to the
    store. The callbacks, the tick and the one-second interval are explicit methods; which of
    them runs when is up to the caller (the browser's scheduler is not part of this model). */
module MotorIngest {
  import opened Wrappers
  import opened Bounded
  import opened Coalescer
  import opened MotorProtocol
  import opened Gateway
  import MotorStore

  /** The events the hook listens to, in the order it subscribes. */
  const MOTOR_EVENTS: seq<string> := [
    "motor-feedback", "can-frame-log", "motor-fault-status", "motor-param-read",
    "udp-warning", "motor-device-info", "motor-version-info", "motor-private-feedback"]

  class MotorIngest {
    const store: MotorStore.MotorStore
    /** `pendingFb` */
    var pending: Option<MotorFeedback>
    /** `frameCountRef` */
    var arrivals: nat
    /** Event names with a live subscription. */
    var listening: seq<string>
    /** Event names whose unsubscribe function has been called. */
    var unsubscribed: seq<string>
    /** An animation frame is requested. */
    var frameRequested: bool
    /** The rate interval is running. */
    var intervalRunning: bool

    function CurrentSlot(): Slot<MotorFeedback>
      reads this
    {
      Slot(pending, arrivals)
    }

    /** Mounting the effect: all eight listeners, the first frame request and the interval. */
    constructor (s: MotorStore.MotorStore)
      ensures store == s && CurrentSlot() == EmptySlot()
      ensures listening == MOTOR_EVENTS && unsubscribed == []
      ensures frameRequested && intervalRunning
    {
      store := s;
      pending, arrivals := None, 0;
      listening, unsubscribed := MOTOR_EVENTS, [];
      frameRequested, intervalRunning := true, true;
    }

    /** "motor-feedback": overwrite the slot and count the arrival; the store is not touched. */
    method OnFeedback(fb: MotorFeedback)
      modifies this
      ensures CurrentSlot() == Arrive(old(CurrentSlot()), fb)
      ensures listening == old(listening) && unsubscribed == old(unsubscribed)
      ensures frameRequested == old(frameRequested) && intervalRunning == old(intervalRunning)
    {
      pending := Some(fb);
      arrivals := arrivals + 1;
    }

    /** "can-frame-log", on every event. */
    method OnFrameLog(entry: CanFrameLog)
      requires store.Valid()
      modifies store
      ensures store.Valid()
      ensures store.State() == old(store.State()).(canLog := PushCapped(old(store.canLog), entry, MAX_LOG_LINES))
    {
      store.PushCanLog(entry);
    }

    /** "motor-fault-status", on every event. */
    method OnFaultStatus(fs: FaultStatus)
      modifies store
      ensures store.State() == old(store.State()).(faultStatus := Some(fs))
    {
      store.SetFaultStatus(fs);
    }

    /** "motor-param-read", on every event. */
    method OnParamRead(resp: ParamReadResponse)
      modifies store
      ensures store.State() == old(store.State()).(paramValues :=
        old(store.paramValues)[resp.index as int := MotorStore.ParamValue(resp.valueU32, resp.valueBytes, resp.success)])
    {
      store.SetParamValue(resp);
    }

    /** "udp-warning", on every event. */
    method OnUdpWarning(msg: string)
      modifies store
      ensures store.State() == old(store.State()).(udpWarning := msg)
    {
      store.SetUdpWarning(msg);
    }

    /** "motor-device-info", on every event. */
    method OnDeviceInfo(motorId: int, deviceId: string)
      modifies store
      ensures store.State() == old(store.State()).(deviceMotorId := Some(motorId), deviceId := Some(deviceId))
    {
      store.SetDeviceInfo(motorId, deviceId);
    }

    /** "motor-version-info", on every event. */
    method OnVersionInfo(motorId: int, version: string)
      modifies store
      ensures store.State() == old(store.State()).(firmwareVersion := Some(version))
    {
      store.SetFirmwareVersion(motorId, version);
    }

    /** "motor-private-feedback", on every event. */
    method OnPrivateFeedback(fb: PrivateFeedback)
      modifies store
      ensures store.State() == old(store.State()).(privateFeedback := Some(fb))
    {
      store.SetPrivateFeedback(fb);
    }

    /** The animation-frame tick at clock reading `now`: a pending sample is pushed into the
        store once and the slot emptied; an empty slot leaves the store as it was. The next
        frame is requested either way. */
    method Tick(now: int)
      requires frameRequested
      requires store.Valid()
      modifies this, store
      ensures store.Valid()
      ensures CurrentSlot() == Drain(old(CurrentSlot())).0
      ensures match Drain(old(CurrentSlot())).1
        case None => store.State() == old(store.State())
        case Some(fb) => store.State() == old(store.State()).(latest := Some(fb),
          history := PushCapped(old(store.history), fb, MAX_HISTORY),
          timestamps := PushCapped(old(store.timestamps), now, MAX_HISTORY))
      ensures frameRequested
      ensures listening == old(listening) && unsubscribed == old(unsubscribed) && intervalRunning == old(intervalRunning)
    {
      if pending.Some? {
        store.PushFeedback(pending.value, now);
        pending := None;
      }
      frameRequested := true;
    }

    /** The one-second interval: the arrival count becomes the store's fps and restarts from
        zero; the pending sample stays. */
    method FpsInterval()
      requires intervalRunning
      modifies this, store
      ensures CurrentSlot() == Publish(old(CurrentSlot())).0
      ensures store.State() == old(store.State()).(fps := Publish(old(CurrentSlot())).1)
      ensures listening == old(listening) && unsubscribed == old(unsubscribed)
      ensures frameRequested == old(frameRequested) && intervalRunning == old(intervalRunning)
    {
      store.SetFps(arrivals);
      arrivals := 0;
    }

    /** The effect's cleanup: every one of the eight subscriptions is asked to go, the frame
        request is cancelled and the interval cleared. */
    method Teardown()
      modifies this
      ensures unsubscribed == old(unsubscribed) + MOTOR_EVENTS && listening == []
      ensures !frameRequested && !intervalRunning
      ensures CurrentSlot() == old(CurrentSlot())
    {
      unsubscribed := unsubscribed + MOTOR_EVENTS;
      listening := [];
      frameRequested, intervalRunning := false, false;
    }
  }
}
