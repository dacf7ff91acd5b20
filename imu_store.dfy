/** The frontend IMU store: the serial connection settings, the latest sample with its capped
    history, the recording flag, the drained-frame counter and the published rate, and the
    console lines. Samples are the integer part of a decoded HI91 packet; the float fields the
    frontend receives are not part of this model. */
module ImuStore {
  import opened Wrappers
  import opened Bounded
  import opened Hipnuc

  /** The console line cap (the literal 200 of `addConsoleLine`). */
  const MAX_CONSOLE_LINES: nat := MAX_LOG_LINES

  /** All the store's fields at one moment. */
  datatype ImuState = ImuState(
    connected: bool, portName: string, baudRate: int,
    latest: Option<Hi91Data>, history: seq<Hi91Data>, timestamps: seq<int>,
    recording: bool, frameCount: int, fps: int, consoleLines: seq<string>)

  /** `useImuStore`. */
  class ImuStore {
    var connected: bool
    var portName: string
    var baudRate: int
    var latest: Option<Hi91Data>
    var history: seq<Hi91Data>
    var timestamps: seq<int>
    var recording: bool
    var frameCount: int
    var fps: int
    var consoleLines: seq<string>

    /** Samples and their times are parallel arrays within the history cap, and the console
        is within its cap. */
    ghost predicate Valid()
      reads this
    {
      |history| == |timestamps| <= MAX_HISTORY && |consoleLines| <= MAX_CONSOLE_LINES
    }

    function State(): ImuState
      reads this
    {
      ImuState(connected, portName, baudRate, latest, history, timestamps, recording, frameCount, fps, consoleLines)
    }

    /** The store's initial state. */
    constructor ()
      ensures Valid()
      ensures State() == ImuState(false, "", 115200, None, [], [], false, 0, 0, [])
    {
      connected, portName, baudRate := false, "", 115200;
      latest, history, timestamps := None, [], [];
      recording, frameCount, fps, consoleLines := false, 0, 0, [];
    }

    method SetConnected(c: bool)
      modifies this
      ensures State() == old(State()).(connected := c)
    {
      connected := c;
    }

    method SetPortName(name: string)
      modifies this
      ensures State() == old(State()).(portName := name)
    {
      portName := name;
    }

    method SetBaudRate(rate: int)
      modifies this
      ensures State() == old(State()).(baudRate := rate)
    {
      baudRate := rate;
    }

    method SetRecording(r: bool)
      modifies this
      ensures State() == old(State()).(recording := r)
    {
      recording := r;
    }

    /** `pushData`: the sample becomes the latest, and it and its time are pushed onto the capped
        history; the history and the times stay parallel. */
    method PushData(data: Hi91Data, now: int)
      requires Valid()
      modifies this
      ensures Valid()
      ensures State() == old(State()).(latest := Some(data),
        history := PushCapped(old(history), data, MAX_HISTORY),
        timestamps := PushCapped(old(timestamps), now, MAX_HISTORY))
      ensures history[|history| - 1] == data && timestamps[|timestamps| - 1] == now
    {
      latest := Some(data);
      history := PushCapped(history, data, MAX_HISTORY);
      timestamps := PushCapped(timestamps, now, MAX_HISTORY);
    }

    /** `incrementFrameCount`: exactly one more. */
    method IncrementFrameCount()
      modifies this
      ensures State() == old(State()).(frameCount := old(frameCount) + 1)
    {
      frameCount := frameCount + 1;
    }

    /** `setFps`: publishes the rate and restarts the frame counter. */
    method SetFps(n: int)
      modifies this
      ensures State() == old(State()).(fps := n, frameCount := 0)
    {
      fps, frameCount := n, 0;
    }

    /** `addConsoleLine`: appended, the oldest dropped beyond 200. */
    method AddConsoleLine(line: string)
      requires Valid()
      modifies this
      ensures Valid()
      ensures State() == old(State()).(consoleLines := PushCapped(old(consoleLines), line, MAX_CONSOLE_LINES))
    {
      consoleLines := PushCapped(consoleLines, line, MAX_CONSOLE_LINES);
    }

    method ClearConsole()
      modifies this
      ensures State() == old(State()).(consoleLines := [])
    {
      consoleLines := [];
    }

    /** `reset`: clears the data and the counters; the connection settings, the recording flag
        and the console are kept. */
    method Reset()
      modifies this
      ensures State() == old(State()).(latest := None, history := [], timestamps := [], frameCount := 0, fps := 0)
    {
      latest, history, timestamps, frameCount, fps := None, [], [], 0, 0;
    }
  }
}
