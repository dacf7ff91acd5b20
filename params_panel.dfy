/** The parameter panel's logic: how a stored reading is shown and coloured, which backend type
    name a write uses, when a write or a CAN id change is sent at all, and the order of the
    commands "Read all" issues. The commands the panel invokes are recorded in order; each
    backend call's failure is a parameter. */
module ParamsPanel {
  import opened Wrappers
  import opened TextFormat
  import opened JsNumber
  import opened MotorProtocol
  import opened Gateway
  import MotorStore

  /** What a value cell shows: a text, or the four-decimal rendering of `value_f32` for F32
      parameters (floating point is not part of this model). */
  datatype Shown = Text(text: string) | FloatFixed4

  /** Shown when nothing is stored for the index (an em dash). */
  const NO_VALUE: string := "\U{2014}"
  const READ_FAILED: string := "ERR"
  const ERROR_COLOR: string := "text-red-400"

  /** The I16 reading of a stored 32-bit value: above 32767 it is taken as negative. */
  function I16Reading(valueU32: bv32): int {
    if valueU32 as int > 32767 then valueU32 as int - 65536 else valueU32 as int
  }

  /** `formatValue`. */
  function FormatValue(paramType: string, index: int, values: map<int, MotorStore.ParamValue>): Shown {
    if index !in values then Text(NO_VALUE)
    else
      var v := values[index];
      if !v.success then Text(READ_FAILED)
      else if paramType == "F32" then FloatFixed4
      else if paramType == "I16" then Text(IntString(I16Reading(v.valueU32)))
      else Text(Decimal(v.valueU32 as nat))
  }

  /** `valueColor`. */
  function ValueColor(index: int, values: map<int, MotorStore.ParamValue>, defaultColor: string): string {
    if index in values && !values[index].success then ERROR_COLOR else defaultColor
  }

  /** Nothing stored shows the dash and a failed read shows "ERR", whatever the type. */
  lemma FormatMissingAndFailed(paramType: string, index: int, values: map<int, MotorStore.ParamValue>)
    ensures index !in values ==> FormatValue(paramType, index, values) == Text(NO_VALUE)
    ensures index in values && !values[index].success ==> FormatValue(paramType, index, values) == Text(READ_FAILED)
  {
  }

  lemma IntStringNotErr(i: int)
    ensures IntString(i) != READ_FAILED
  {
    var m := if i < 0 then -i else i;
    DecimalRoundTrip(m);
    assert IntString(i)[0] == '-' || '0' <= IntString(i)[0] <= '9';
  }

  /** A cell is coloured red exactly when it shows "ERR" (for a default colour other than red). */
  lemma RedIffErr(paramType: string, index: int, values: map<int, MotorStore.ParamValue>, defaultColor: string)
    requires defaultColor != ERROR_COLOR
    ensures ValueColor(index, values, defaultColor) == ERROR_COLOR
      <==> FormatValue(paramType, index, values) == Text(READ_FAILED)
  {
    if index in values && values[index].success {
      var v := values[index];
      IntStringNotErr(I16Reading(v.valueU32));
      IntStringNotErr(v.valueU32 as int);
    }
  }

  /** When the upper two bytes are zero, the I16 reading is the 16-bit two's complement value:
      the one integer in -32768..32767 congruent to the stored value modulo 65536. */
  lemma I16IsTwosComplement(valueU32: bv32)
    requires valueU32 as int < 65536
    ensures -32768 <= I16Reading(valueU32) <= 32767
    ensures (I16Reading(valueU32) - valueU32 as int) % 65536 == 0
  {
  }

  /** A value written as i16 (`val as i16 as u16`, zero-extended in the reply) shows as itself. */
  lemma I16WriteReadBack(x: int, stored: bv32)
    requires -32768 <= x <= 32767 && stored as int == x % 65536
    ensures I16Reading(stored) == x
  {
  }

  /** A reply whose value is sign-extended to 32 bits is not shown as its 16-bit value: -32768
      stored as 0xFFFF8000 shows as 4294868992. */
  lemma I16SignExtendedShown()
    ensures FormatValue("I16", 0, map[0 := MotorStore.ParamValue(0xFFFF8000, [0x00, 0x80, 0xFF, 0xFF], true)])
      == Text(IntString(4294868992))
    ensures IntString(4294868992) != IntString(-32768)
  {
    DecimalRoundTrip(4294868992);
    assert IntString(4294868992)[0] != '-';
  }

  /** Whatever an integer cell shows, typed back into the edit box, passes the write guard and
      is sent as that same text. */
  lemma ShownIntegerRewritable(paramType: string, index: int, values: map<int, MotorStore.ParamValue>)
    requires index in values && values[index].success && paramType != "F32"
    ensures FormatValue(paramType, index, values).Text?
    ensures WriteLiteral(Some(FormatValue(paramType, index, values).text))
      == Some(FormatValue(paramType, index, values).text)
  {
    var v := values[index];
    if paramType == "I16" {
      IntStringIsNumeric(I16Reading(v.valueU32));
      DecimalRoundTrip(if I16Reading(v.valueU32) < 0 then -I16Reading(v.valueU32) else I16Reading(v.valueU32));
    } else {
      IntStringIsNumeric(v.valueU32 as int);
      DecimalRoundTrip(v.valueU32 as nat);
    }
  }

  /** The backend's parameter type names. */
  const BACKEND_TYPES: set<string> := {"u8", "u16", "u32", "i16", "f32"}

  /** `typeMap[p.paramType] || "f32"`: the five numeric names in lower case, anything else
      as "f32". The result is always a name the backend's write command accepts. */
  function TypeMap(paramType: string): (r: string)
    ensures r in BACKEND_TYPES
  {
    if paramType == "U8" then "u8"
    else if paramType == "U16" then "u16"
    else if paramType == "U32" then "u32"
    else if paramType == "I16" then "i16"
    else "f32"
  }

  /** On the table's own type names, the map lowers the numeric types and sends strings as
      "f32". */
  lemma TypeMapOfTable(t: ParamType)
    ensures TypeMap(ParamTypeName(t)) == match t
      case U8 => "u8" case U16 => "u16" case U32 => "u32" case I16 => "i16" case F32 => "f32" case Str => "f32"
  {
  }

  /** The write guard: no edit text, an empty one or one `parseFloat` reads as NaN sends
      nothing; otherwise the literal `parseFloat` converts is sent. */
  function WriteLiteral(edit: Option<string>): (r: Option<string>)
    ensures r.Some? <==> edit.Some? && edit.value != "" && !ParseFloatIsNaN(edit.value)
    ensures r.Some? ==> r.value == NumericPrefix(edit.value) && r.value != ""
  {
    match edit
    case None => None
    case Some(s) => if s == "" || ParseFloatIsNaN(s) then None else Some(NumericPrefix(s))
  }

  /** The id the "Set CAN ID" button sends for the typed text: nothing for an empty text, a
      text `parseInt` reads as NaN, or an id outside 0..127. */
  function CanIdToSend(text: string): (r: Option<int>)
    ensures r.Some? ==> 0 <= r.value <= 127
  {
    if text == "" then None
    else match ParseInt(text)
      case None => None
      case Some(id) => if id < 0 || id > 127 then None else Some(id)
  }

  /** Typing an integer (possibly followed by text that is not a digit or an "x") sends exactly
      that id when it is in 0..127, and nothing otherwise. */
  lemma CanIdOfIntString(i: int, rest: string)
    requires rest == [] || (!IsDecDigit(rest[0]) && rest[0] != 'x' && rest[0] != 'X')
    ensures CanIdToSend(IntString(i) + rest) == if 0 <= i <= 127 then Some(i) else None
  {
    ParseIntDecimal(i, rest);
    DecimalRoundTrip(if i < 0 then -i else i);
  }

  /** The commands the panel invokes. */
  datatype Invoke =
    | PrivParamRead(index: int)
    | PrivParamWrite(index: int, paramType: string, valueText: string)
    | PrivSaveParams
    | PrivSetCanId(newId: int)
    | UdpUpdateMotorIds(motorId: int, masterId: int)

  /** One read per table row, in table order. */
  function ReadCommands(table: seq<ParamRow>): (cs: seq<Invoke>)
    ensures |cs| == |table|
    ensures forall i :: 0 <= i < |table| ==> cs[i] == PrivParamRead(table[i].index as int)
  {
    if table == [] then [] else ReadCommands(table[..|table| - 1]) + [PrivParamRead(table[|table| - 1].index as int)]
  }

  /** "Read all" on the backend's table reads the 22 writable parameters first, then the 11
      read-only ones, each once. */
  lemma ReadAllOfBackendTable()
    ensures |ReadCommands(GetParamTable())| == 33
    ensures forall i :: 0 <= i < |WRITABLE_PARAMS| ==>
      ReadCommands(GetParamTable())[i] == PrivParamRead(WRITABLE_PARAMS[i].index as int)
    ensures forall i :: 0 <= i < |READONLY_PARAMS| ==>
      ReadCommands(GetParamTable())[|WRITABLE_PARAMS| + i] == PrivParamRead(READONLY_PARAMS[i].index as int)
  {
    ParamTableOrder();
  }

  const CAN_ID_SAVING: string := "Set CAN ID sent. Saving to flash..."

  function CanIdSaved(id: int): string {
    "CAN ID \U{2192} " + IntString(id) + " saved. Motor ID updated. Power cycle the motor to apply."
  }

  /** After the guard: the id is set, then saved to flash, then the backend's motor id follows
      it (with the store's master id; that call's own failure is ignored). A failure of the
      first two stops there with "Error: " and its message. */
  function CanIdFlow(id: int, masterId: int, setError: Option<string>, saveError: Option<string>): (seq<Invoke>, string) {
    match setError
    case Some(e) => ([PrivSetCanId(id)], "Error: " + e)
    case None =>
      match saveError
      case Some(e) => ([PrivSetCanId(id), PrivSaveParams], "Error: " + e)
      case None => ([PrivSetCanId(id), PrivSaveParams, UdpUpdateMotorIds(id, masterId)], CanIdSaved(id))
  }

  /** The flow sets the id once, first; it saves only after a successful set and moves the
      backend's motor id only after a successful save; the status starts with "Error" exactly
      when one of the two failed (the panel shows it in red then). */
  lemma CanIdFlowOrder(id: int, masterId: int, setError: Option<string>, saveError: Option<string>)
    ensures var (cs, status) := CanIdFlow(id, masterId, setError, saveError);
      && |cs| >= 1 && cs[0] == PrivSetCanId(id)
      && (forall k :: 1 <= k < |cs| ==> !cs[k].PrivSetCanId?)
      && (PrivSaveParams in cs <==> setError.None?)
      && (UdpUpdateMotorIds(id, masterId) in cs <==> setError.None? && saveError.None?)
      && (|status| >= 5 && status[..5] == "Error" <==> setError.Some? || saveError.Some?)
  {
    var (cs, status) := CanIdFlow(id, masterId, setError, saveError);
    assert CanIdSaved(id)[0] == 'C';
  }

  lemma AppendSteps(start: seq<Invoke>, a: Invoke, b: Invoke, c: Invoke)
    ensures start + [a] + [b] == start + [a, b]
    ensures start + [a] + [b] + [c] == start + [a, b, c]
  {
  }

  /** `MotorParamsPanel`'s state and the commands it has invoked. */
  class ParamsPanel {
    const store: MotorStore.MotorStore
    /** `editValues`: the text typed for each parameter index. */
    var editValues: map<int, string>
    var readingAll: bool
    /** The CAN id text box and the status line under it. */
    var newCanId: string
    var canIdStatus: string
    /** The commands invoked so far, in order. */
    var commands: seq<Invoke>

    constructor (s: MotorStore.MotorStore)
      ensures store == s && editValues == map[] && !readingAll
      ensures newCanId == "" && canIdStatus == "" && commands == []
    {
      store := s;
      editValues, readingAll := map[], false;
      newCanId, canIdStatus, commands := "", "", [];
    }

    /** Typing into a parameter's edit box. */
    method SetEditValue(index: int, text: string)
      modifies this
      ensures editValues == old(editValues)[index := text]
      ensures readingAll == old(readingAll) && newCanId == old(newCanId)
      ensures canIdStatus == old(canIdStatus) && commands == old(commands)
    {
      editValues := editValues[index := text];
    }

    /** `readAllParams`: when connected, the stored values are cleared, then every row of the
        store's table is read in order; a failed read is only reported on the console, so the
        loop goes on whatever each read's outcome. When not connected nothing happens. */
    method ReadAllParams()
      modifies this, store
      ensures !old(store.connected) ==>
        commands == old(commands) && store.State() == old(store.State()) && readingAll == old(readingAll)
      ensures old(store.connected) ==>
        && commands == old(commands) + ReadCommands(old(store.paramTable))
        && store.State() == old(store.State()).(paramValues := map[])
        && !readingAll
      ensures editValues == old(editValues) && newCanId == old(newCanId) && canIdStatus == old(canIdStatus)
    {
      if !store.connected {
        return;
      }
      readingAll := true;
      store.ClearParamValues();
      var table := store.paramTable;
      var i := 0;
      while i < |table|
        invariant 0 <= i <= |table|
        invariant commands == old(commands) + ReadCommands(table[..i])
        invariant store.State() == old(store.State()).(paramValues := map[])
        invariant editValues == old(editValues) && newCanId == old(newCanId) && canIdStatus == old(canIdStatus)
      {
        commands := commands + [PrivParamRead(table[i].index as int)];
        assert table[..i + 1][..i] == table[..i];
        i := i + 1;
      }
      assert table[..i] == table;
      readingAll := false;
    }

    /** `writeParam`: when the guard lets the edit text through, a write of the converted
        literal with the mapped type name, then, unless the write failed, a read of the same
        index. Not gated on the connection. */
    method WriteParam(p: ParamRow, writeFailed: bool)
      modifies this
      ensures var lit := WriteLiteral(if p.index as int in old(editValues) then Some(old(editValues)[p.index as int]) else None);
        && (lit.None? ==> commands == old(commands))
        && (lit.Some? ==>
          commands == old(commands) + [PrivParamWrite(p.index as int, TypeMap(p.paramType), lit.value)]
            + (if writeFailed then [] else [PrivParamRead(p.index as int)]))
      ensures editValues == old(editValues) && readingAll == old(readingAll)
      ensures newCanId == old(newCanId) && canIdStatus == old(canIdStatus)
    {
      var edit := if p.index as int in editValues then Some(editValues[p.index as int]) else None;
      if edit.None? || edit.value == "" {
        return;
      }
      if ParseFloatIsNaN(edit.value) {
        return;
      }
      commands := commands + [PrivParamWrite(p.index as int, TypeMap(p.paramType), NumericPrefix(edit.value))];
      if !writeFailed {
        commands := commands + [PrivParamRead(p.index as int)];
      }
    }

    /** Typing into the CAN id box. */
    method SetNewCanId(text: string)
      modifies this
      ensures newCanId == text
      ensures editValues == old(editValues) && readingAll == old(readingAll)
      ensures canIdStatus == old(canIdStatus) && commands == old(commands)
    {
      newCanId := text;
    }

    /** "Set CAN ID": disabled when not connected or the box is empty; an id outside 0..127
        sends nothing. Otherwise the commands and the final status of CanIdFlow. */
    method SetCanIdClick(setError: Option<string>, saveError: Option<string>)
      modifies this
      ensures var id := CanIdToSend(old(newCanId));
        if old(store.connected) && id.Some? then
          var flow := CanIdFlow(id.value, store.config.masterId, setError, saveError);
          commands == old(commands) + flow.0 && canIdStatus == flow.1
        else
          commands == old(commands) && canIdStatus == old(canIdStatus)
      ensures editValues == old(editValues) && readingAll == old(readingAll) && newCanId == old(newCanId)
    {
      var id := CanIdToSend(newCanId);
      if !store.connected || id.None? {
        return;
      }
      RunCanIdFlow(id.value, setError, saveError);
    }

    /** The awaited steps after the guard, for the id `v`: set, save, update the backend's
        motor id, each step only after the previous one succeeded. */
    method RunCanIdFlow(v: int, setError: Option<string>, saveError: Option<string>)
      modifies this
      ensures var flow := CanIdFlow(v, store.config.masterId, setError, saveError);
        commands == old(commands) + flow.0 && canIdStatus == flow.1
      ensures editValues == old(editValues) && readingAll == old(readingAll) && newCanId == old(newCanId)
    {
      var masterId := store.config.masterId;
      AppendSteps(commands, PrivSetCanId(v), PrivSaveParams, UdpUpdateMotorIds(v, masterId));
      canIdStatus := "";
      commands := commands + [PrivSetCanId(v)];
      if setError.Some? {
        canIdStatus := "Error: " + setError.value;
        return;
      }
      canIdStatus := CAN_ID_SAVING;
      commands := commands + [PrivSaveParams];
      if saveError.Some? {
        canIdStatus := "Error: " + saveError.value;
        return;
      }
      commands := commands + [UdpUpdateMotorIds(v, masterId)];
      canIdStatus := CanIdSaved(v);
    }
  }
}
