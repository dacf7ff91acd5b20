/** The frontend motor store: one connection config, one feedback history, the CAN frame log,
    the latest fault, private feedback and warning, the parameter table with the values read so
    far, and the device identity. Every action replaces only the fields it returns; the other
    fields keep their values. */
module MotorStore {
  import opened Wrappers
  import opened MotorProtocol
  import opened Gateway
  import opened Bounded

  /** The frontend `UdpConfig`, with JS numbers. */
  datatype UdpConfig = UdpConfig(gatewayIp: string, gatewayPort: int, localPort: int, motorId: int, masterId: int)

  /** The store's initial config, the same values as the backend's `UdpConfig::default()`. */
  const DEFAULT_CONFIG: UdpConfig := UdpConfig("192.168.0.7", 20001, 20001, 127, 253)

  /** `Partial<UdpConfig>`: each field present or absent. */
  datatype ConfigPatch = ConfigPatch(
    gatewayIp: Option<string>, gatewayPort: Option<int>, localPort: Option<int>, motorId: Option<int>, masterId: Option<int>)

  const NO_CHANGE: ConfigPatch := ConfigPatch(None, None, None, None, None)

  /** `{ ...config, ...partial }`. */
  function MergeConfig(c: UdpConfig, p: ConfigPatch): UdpConfig {
    UdpConfig(
      p.gatewayIp.GetOr(c.gatewayIp), p.gatewayPort.GetOr(c.gatewayPort), p.localPort.GetOr(c.localPort),
      p.motorId.GetOr(c.motorId), p.masterId.GetOr(c.masterId))
  }

  /** A full config as a patch: every field present. */
  function PatchOf(c: UdpConfig): ConfigPatch {
    ConfigPatch(Some(c.gatewayIp), Some(c.gatewayPort), Some(c.localPort), Some(c.motorId), Some(c.masterId))
  }

  /** Two patches in a row, the later one winning where both have a field. */
  function ThenPatch(p: ConfigPatch, q: ConfigPatch): ConfigPatch {
    ConfigPatch(
      if q.gatewayIp.Some? then q.gatewayIp else p.gatewayIp,
      if q.gatewayPort.Some? then q.gatewayPort else p.gatewayPort,
      if q.localPort.Some? then q.localPort else p.localPort,
      if q.motorId.Some? then q.motorId else p.motorId,
      if q.masterId.Some? then q.masterId else p.masterId)
  }

  /** The shallow merge: present fields override, absent fields keep the old value; an empty
      patch changes nothing and a full one replaces the config. */
  lemma MergeFields(c: UdpConfig, p: ConfigPatch)
    ensures var r := MergeConfig(c, p);
      && (p.gatewayIp.Some? ==> r.gatewayIp == p.gatewayIp.value) && (p.gatewayIp.None? ==> r.gatewayIp == c.gatewayIp)
      && (p.gatewayPort.Some? ==> r.gatewayPort == p.gatewayPort.value) && (p.gatewayPort.None? ==> r.gatewayPort == c.gatewayPort)
      && (p.localPort.Some? ==> r.localPort == p.localPort.value) && (p.localPort.None? ==> r.localPort == c.localPort)
      && (p.motorId.Some? ==> r.motorId == p.motorId.value) && (p.motorId.None? ==> r.motorId == c.motorId)
      && (p.masterId.Some? ==> r.masterId == p.masterId.value) && (p.masterId.None? ==> r.masterId == c.masterId)
    ensures MergeConfig(c, NO_CHANGE) == c
    ensures MergeConfig(c, PatchOf(c)) == c
  {
  }

  /** Merging two patches one after the other is merging their combination, and merging the
      same patch twice is merging it once. */
  lemma MergeCompose(c: UdpConfig, p: ConfigPatch, q: ConfigPatch)
    ensures MergeConfig(MergeConfig(c, p), q) == MergeConfig(c, ThenPatch(p, q))
    ensures MergeConfig(MergeConfig(c, p), p) == MergeConfig(c, p)
    ensures MergeConfig(c, PatchOf(MergeConfig(c, p))) == MergeConfig(c, p)
  {
  }

  /** One stored parameter reading (`value_f32` is not part of this model). */
  datatype ParamValue = ParamValue(valueU32: bv32, raw: seq<bv8>, success: bool)

  /** All the store's fields at one moment. */
  datatype MotorState = MotorState(
    connected: bool, config: UdpConfig,
    latest: Option<MotorFeedback>, history: seq<MotorFeedback>, timestamps: seq<int>, fps: int,
    canLog: seq<CanFrameLog>, faultStatus: Option<FaultStatus>, privateFeedback: Option<PrivateFeedback>,
    udpWarning: string, paramTable: seq<ParamRow>, paramValues: map<int, ParamValue>,
    deviceId: Option<string>, deviceMotorId: Option<int>, firmwareVersion: Option<string>)

  /** `useMotorStore`. */
  class MotorStore {
    var connected: bool
    var config: UdpConfig
    var latest: Option<MotorFeedback>
    var history: seq<MotorFeedback>
    var timestamps: seq<int>
    var fps: int
    var canLog: seq<CanFrameLog>
    var faultStatus: Option<FaultStatus>
    var privateFeedback: Option<PrivateFeedback>
    var udpWarning: string
    var paramTable: seq<ParamRow>
    var paramValues: map<int, ParamValue>
    var deviceId: Option<string>
    var deviceMotorId: Option<int>
    var firmwareVersion: Option<string>

    /** The history and its timestamps are parallel arrays within the history cap, and the
        frame log is within the log cap. */
    ghost predicate Valid()
      reads this
    {
      |history| == |timestamps| <= MAX_HISTORY && |canLog| <= MAX_LOG_LINES
    }

    function State(): MotorState
      reads this
    {
      MotorState(connected, config, latest, history, timestamps, fps, canLog, faultStatus, privateFeedback,
        udpWarning, paramTable, paramValues, deviceId, deviceMotorId, firmwareVersion)
    }

    /** The store's initial state. */
    constructor ()
      ensures Valid()
      ensures State() == MotorState(false, DEFAULT_CONFIG, None, [], [], 0, [], None, None, "", [], map[], None, None, None)
    {
      connected, config := false, DEFAULT_CONFIG;
      latest, history, timestamps, fps := None, [], [], 0;
      canLog, faultStatus, privateFeedback, udpWarning := [], None, None, "";
      paramTable, paramValues := [], map[];
      deviceId, deviceMotorId, firmwareVersion := None, None, None;
    }

    /** `setConfig`: a shallow merge into the config. */
    method SetConfig(partial: ConfigPatch)
      modifies this
      ensures State() == old(State()).(config := MergeConfig(old(config), partial))
    {
      config := MergeConfig(config, partial);
    }

    method SetConnected(c: bool)
      modifies this
      ensures State() == old(State()).(connected := c)
    {
      connected := c;
    }

    method SetFps(n: int)
      modifies this
      ensures State() == old(State()).(fps := n)
    {
      fps := n;
    }

    /** `pushFeedback`: the sample becomes the latest, and it and its time are pushed onto the
        capped history; the history and the times stay parallel. */
    method PushFeedback(fb: MotorFeedback, now: int)
      requires Valid()
      modifies this
      ensures Valid()
      ensures State() == old(State()).(latest := Some(fb),
        history := PushCapped(old(history), fb, MAX_HISTORY),
        timestamps := PushCapped(old(timestamps), now, MAX_HISTORY))
      ensures history[|history| - 1] == fb && timestamps[|timestamps| - 1] == now
    {
      latest := Some(fb);
      history := PushCapped(history, fb, MAX_HISTORY);
      timestamps := PushCapped(timestamps, now, MAX_HISTORY);
    }

    /** `pushCanLog`: appended, the oldest dropped beyond 200. */
    method PushCanLog(entry: CanFrameLog)
      requires Valid()
      modifies this
      ensures Valid()
      ensures State() == old(State()).(canLog := PushCapped(old(canLog), entry, MAX_LOG_LINES))
    {
      canLog := PushCapped(canLog, entry, MAX_LOG_LINES);
    }

    method ClearCanLog()
      modifies this
      ensures State() == old(State()).(canLog := [])
    {
      canLog := [];
    }

    method SetFaultStatus(fs: FaultStatus)
      modifies this
      ensures State() == old(State()).(faultStatus := Some(fs))
    {
      faultStatus := Some(fs);
    }

    method SetPrivateFeedback(fb: PrivateFeedback)
      modifies this
      ensures State() == old(State()).(privateFeedback := Some(fb))
    {
      privateFeedback := Some(fb);
    }

    method SetUdpWarning(msg: string)
      modifies this
      ensures State() == old(State()).(udpWarning := msg)
    {
      udpWarning := msg;
    }

    method SetParamTable(table: seq<ParamRow>)
      modifies this
      ensures State() == old(State()).(paramTable := table)
    {
      paramTable := table;
    }

    /** `setParamValue`: the entry under the response's index is replaced by its reading; every
        other index keeps its entry or its absence. */
    method SetParamValue(resp: ParamReadResponse)
      modifies this
      ensures State() == old(State()).(paramValues := old(paramValues)[resp.index as int := ParamValue(resp.valueU32, resp.valueBytes, resp.success)])
      ensures forall k :: k in paramValues <==> k in old(paramValues) || k == resp.index as int
      ensures forall k :: k in old(paramValues) && k != resp.index as int ==> paramValues[k] == old(paramValues)[k]
    {
      paramValues := paramValues[resp.index as int := ParamValue(resp.valueU32, resp.valueBytes, resp.success)];
    }

    method ClearParamValues()
      modifies this
      ensures State() == old(State()).(paramValues := map[])
    {
      paramValues := map[];
    }

    /** `setDeviceInfo`: both the responding motor id and its MCU id. */
    method SetDeviceInfo(motorId: int, id: string)
      modifies this
      ensures State() == old(State()).(deviceMotorId := Some(motorId), deviceId := Some(id))
    {
      deviceMotorId, deviceId := Some(motorId), Some(id);
    }

    /** `setFirmwareVersion`: only the version; the motor id argument is ignored. */
    method SetFirmwareVersion(motorId: int, version: string)
      modifies this
      ensures State() == old(State()).(firmwareVersion := Some(version))
    {
      firmwareVersion := Some(version);
    }
  }
}
