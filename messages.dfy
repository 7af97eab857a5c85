/**
 The JSON documents the server produces: the commands sent to a device over
 its socket and the replies returned to the HTTP caller. Objects keep their
 keys in the order the server writes them.
 */
module Messages {
  import opened Options

  /**
   A JSON value. An object is a Python dict: its members, and the order in
   which its keys were written.
   */
  datatype Json = JNull | JInt(i: int) | JStr(s: string) | JObject(order: seq<string>, members: map<string, Json>)

  /** `j` is an object whose keys are exactly `keys`, written in that order. */
  predicate HasExactKeys(j: Json, keys: seq<string>) {
    j.JObject? && j.order == keys && j.members.Keys == set k | k in keys
  }

  /** The value stored under `key` in an object. */
  function Get(j: Json, key: string): Option<Json> {
    if j.JObject? && key in j.members then Some(j.members[key]) else None
  }

  /** The value at a path of keys, as in `j["params"]["frequency"]`. */
  function At(j: Json, path: seq<string>): Option<Json>
    decreases |path|
  {
    if |path| == 0 then Some(j)
    else match Get(j, path[0])
      case None => None
      case Some(child) => At(child, path[1..])
  }

  /** A mode as the server writes it: a string, or `null` for Python's `None`. */
  function ModeJson(mode: Option<string>): Json {
    if mode.Some? then JStr(mode.value) else JNull
  }

  /** The command telling a device to change frequency. */
  function QsyCommand(qrg: int): (j: Json)
    ensures HasExactKeys(j, ["command", "params"])
    ensures At(j, ["command"]) == Some(JStr("qsy"))
    ensures At(j, ["params"]).Some? && HasExactKeys(At(j, ["params"]).value, ["frequency"])
    ensures At(j, ["params", "frequency"]) == Some(JInt(qrg))
  {
    JObject(["command", "params"],
            map["command" := JStr("qsy"), "params" := JObject(["frequency"], map["frequency" := JInt(qrg)])])
  }

  /** The command telling a device to change frequency and mode; an absent mode is sent as `null`. */
  function QsyWithModeCommand(qrg: int, mode: Option<string>): (j: Json)
    ensures HasExactKeys(j, ["command", "params"])
    ensures At(j, ["command"]) == Some(JStr("qsy_with_mode"))
    ensures At(j, ["params"]).Some? && HasExactKeys(At(j, ["params"]).value, ["frequency", "mode"])
    ensures At(j, ["params", "frequency"]) == Some(JInt(qrg))
    ensures mode.Some? ==> At(j, ["params", "mode"]) == Some(JStr(mode.value))
    ensures mode.None? ==> At(j, ["params", "mode"]) == Some(JNull)
  {
    JObject(["command", "params"],
            map["command" := JStr("qsy_with_mode"),
                "params" := JObject(["frequency", "mode"], map["frequency" := JInt(qrg), "mode" := ModeJson(mode)])])
  }

  /** The HTTP reply to a successful frequency change. */
  function QsyReply(deviceId: string, qrg: int): (j: Json)
    ensures HasExactKeys(j, ["device_id", "qrg", "result"])
    ensures At(j, ["device_id"]) == Some(JStr(deviceId))
    ensures At(j, ["qrg"]) == Some(JInt(qrg))
    ensures At(j, ["result"]) == Some(JStr("success"))
  {
    JObject(["device_id", "qrg", "result"],
            map["device_id" := JStr(deviceId), "qrg" := JInt(qrg), "result" := JStr("success")])
  }

  /** The HTTP reply to a successful frequency and mode change; an absent mode is echoed as `null`. */
  function QsyWithModeReply(deviceId: string, qrg: int, mode: Option<string>): (j: Json)
    ensures HasExactKeys(j, ["device_id", "qrg", "mode", "result"])
    ensures At(j, ["device_id"]) == Some(JStr(deviceId))
    ensures At(j, ["qrg"]) == Some(JInt(qrg))
    ensures mode.Some? ==> At(j, ["mode"]) == Some(JStr(mode.value))
    ensures mode.None? ==> At(j, ["mode"]) == Some(JNull)
    ensures At(j, ["result"]) == Some(JStr("success"))
  {
    JObject(["device_id", "qrg", "mode", "result"],
            map["device_id" := JStr(deviceId), "qrg" := JInt(qrg), "mode" := ModeJson(mode),
                "result" := JStr("success")])
  }
}
