/**
 * `is_interesting`: an envelope is processed only when its device id starts
 * with "risinghf" and it arrived on port 8. The Python expression
 * `data["dev_id"].startswith("risinghf") and data["port"] == 8` short-circuits,
 * so `data["port"]` is only looked up once the prefix has matched, and a
 * failed lookup raises instead of answering false.
 */
module Filter {
  import opened Wrappers
  import opened Webhook

  const DevicePrefix: string := "risinghf"
  const SensorPort: real := 8.0

  /** Python's `str.startswith`. */
  predicate StartsWith(s: string, prefix: string)
    ensures StartsWith(s, prefix) <==> prefix <= s
  {
    |prefix| <= |s| && s[..|prefix|] == prefix
  }

  /** `value == 8` for any JSON value: only a number equal to 8 compares equal. */
  predicate IsSensorPort(v: Value)
    ensures IsSensorPort(v) <==> v == Num(8.0)
  {
    v.Num? && v.n == SensorPort
  }

  function IsInteresting(data: Envelope): (r: Result<bool, Fault>)
    // The happy path, in both directions.
    ensures r == Success(true) <==>
      data.devId.Some? && data.devId.value.Str? && DevicePrefix <= data.devId.value.s &&
      data.port == Some(Num(8.0))
    // The lookups and the attribute access that raise.
    ensures data.devId.None? ==> r == Failure(KeyError("dev_id"))
    ensures data.devId.Some? && !data.devId.value.Str? ==> r == Failure(AttributeError)
    ensures r == Failure(KeyError("port")) <==>
      data.devId.Some? && data.devId.value.Str? && DevicePrefix <= data.devId.value.s &&
      data.port.None?
    // With the prefix and a port present, the answer is whether the port is 8; it never raises.
    ensures (data.devId.Some? && data.devId.value.Str? && DevicePrefix <= data.devId.value.s &&
             data.port.Some?) ==> r == Success(IsSensorPort(data.port.value))
    // A device id without the prefix is rejected without looking at the port.
    ensures data.devId.Some? && data.devId.value.Str? && !(DevicePrefix <= data.devId.value.s) ==>
      r == Success(false)
  {
    match data.devId
    case None => Failure(KeyError("dev_id"))
    case Some(Str(id)) =>
      if !StartsWith(id, DevicePrefix) then Success(false)
      else
        (match data.port
         case None => Failure(KeyError("port"))
         case Some(port) => Success(IsSensorPort(port)))
    case Some(_) => Failure(AttributeError)
  }

  /** A device of another make is ignored whatever its port, even with no port at all. */
  lemma OtherDeviceIgnored(port: Option<Value>, payload: Option<Value>)
    ensures IsInteresting(Envelope(Some(Str("other-device")), port, payload)) == Success(false)
  {
    assert !StartsWith("other-device", DevicePrefix) by {
      assert "other-device"[0] != DevicePrefix[0];
    }
  }

  /** A RisingHF device on another port is ignored. */
  lemma OtherPortIgnored(payload: Option<Value>)
    ensures IsInteresting(Envelope(Some(Str("risinghf-001")), Some(Num(3.0)), payload)) == Success(false)
  {
  }

  /** A RisingHF device on port 8 is processed. */
  lemma SensorAccepted(payload: Option<Value>)
    ensures IsInteresting(Envelope(Some(Str("risinghf-001")), Some(Num(8.0)), payload)) == Success(true)
  {
  }
}
