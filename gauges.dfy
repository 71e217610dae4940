/**
 * The webhook handler `save_item` and the two process-wide gauges it
 * writes, `lorasensor_temperature_celsius` and `lorasensor_humidity_percent`,
 * each a last-value store labelled by `device`.
 */
module Gauges {
  import opened Wrappers
  import opened Webhook
  import opened Payload
  import Filter

  /** The JSON body `{"success": true}` the handler answers with. */
  datatype Reply = Reply(success: bool)

  /** What an accepted envelope writes: one reading for one device. */
  datatype Update = Update(device: string, reading: Reading)

  /**
   * Everything `save_item` computes before it touches a gauge: the fault it
   * raises, `None` for an envelope it ignores, or the update it applies.
   */
  function Accept(data: Envelope): (r: Result<Option<Update>, Fault>)
    ensures Filter.IsInteresting(data).Failure? ==> r == Failure(Filter.IsInteresting(data).error)
    ensures Filter.IsInteresting(data) == Success(false) <==> r == Success(None)
    ensures Filter.IsInteresting(data) == Success(true) && data.payloadRaw.None? ==>
      r == Failure(KeyError("payload_raw"))
    ensures (Filter.IsInteresting(data) == Success(true) && data.payloadRaw.Some? &&
             DecodePayload(data.payloadRaw.value).Failure?) ==>
      r == Failure(DecodePayload(data.payloadRaw.value).error)
    ensures r.Success? && r.value.Some? <==>
      Filter.IsInteresting(data) == Success(true) && data.payloadRaw.Some? &&
      DecodePayload(data.payloadRaw.value).Success?
    ensures r.Success? && r.value.Some? ==>
      data.devId == Some(Str(r.value.value.device)) &&
      Filter.DevicePrefix <= r.value.value.device &&
      r.value.value.reading == DecodePayload(data.payloadRaw.value).value
  {
    match Filter.IsInteresting(data)
    case Failure(f) => Failure(f)
    case Success(interesting) =>
      if !interesting then Success(None)
      else
        var dev := data.devId.value.s;
        match data.payloadRaw
        case None => Failure(KeyError("payload_raw"))
        case Some(raw) =>
          match DecodePayload(raw)
          case Failure(f) => Failure(f)
          case Success(reading) => Success(Some(Update(dev, reading)))
  }

  /** The sample uplink from "risinghf-001" on port 8 updates that device with the decoded reading. */
  lemma SampleEnvelopeAccepted()
    ensures Accept(Envelope(Some(Str("risinghf-001")), Some(Num(8.0)), Some(Str("AQBkMg==")))) ==
      Success(Some(Update("risinghf-001",
        Reading(175.72 * 25600.0 / 65536.0 - 46.85, 125.0 * 50.0 / 256.0 - 6.0))))
  {
    Filter.SensorAccepted(Some(Str("AQBkMg==")));
    SampleUplink();
  }

  /** Another make of device is ignored whatever its payload, even a missing or malformed one. */
  lemma OtherDeviceIgnoredWhateverPayload(port: Option<Value>, payload: Option<Value>)
    ensures Accept(Envelope(Some(Str("other-device")), port, payload)) == Success(None)
  {
    Filter.OtherDeviceIgnored(port, payload);
  }

  /** The two gauges, each a map from the `device` label to its last value. */
  class GaugeStore {
    var temperature: map<string, real>
    var humidity: map<string, real>

    /**
     * Both gauges hold the same devices, every one of them a RisingHF device,
     * and every value lies in the range the sensor's conversion can produce.
     */
    ghost predicate Valid()
      reads this
    {
      && temperature.Keys == humidity.Keys
      && (forall d :: d in temperature ==> Filter.DevicePrefix <= d)
      && (forall d :: d in temperature ==> TemperatureMin <= temperature[d] <= TemperatureMax)
      && (forall d :: d in humidity ==> HumidityMin <= humidity[d] <= HumidityMax)
    }

    /** The gauges are registered empty when the process starts. */
    constructor ()
      ensures Valid()
      ensures temperature == map[] && humidity == map[]
    {
      temperature := map[];
      humidity := map[];
    }

    /**
     * `save_item`: a fault leaves both gauges as they were; an ignored
     * envelope too; an accepted one overwrites the device's two entries and
     * nothing else. Whenever it returns, it answers success.
     */
    method SaveItem(data: Envelope) returns (r: Result<Reply, Fault>)
      requires Valid()
      modifies this
      ensures Valid()
      ensures r.Success? ==> r.value == Reply(true)
      ensures Accept(data).Failure? ==>
        r == Failure(Accept(data).error) &&
        temperature == old(temperature) && humidity == old(humidity)
      ensures Accept(data) == Success(None) ==>
        r == Success(Reply(true)) &&
        temperature == old(temperature) && humidity == old(humidity)
      ensures Accept(data).Success? && Accept(data).value.Some? ==>
        var u := Accept(data).value.value;
        r == Success(Reply(true)) &&
        temperature == old(temperature)[u.device := u.reading.temperature] &&
        humidity == old(humidity)[u.device := u.reading.humidity]
      ensures old(temperature).Keys <= temperature.Keys && old(humidity).Keys <= humidity.Keys
    {
      var interesting := Filter.IsInteresting(data);
      if interesting.Failure? {
        return Failure(interesting.error);
      }
      if !interesting.value {
        return Success(Reply(true));
      }
      var dev := data.devId.value.s;
      if data.payloadRaw.None? {
        return Failure(KeyError("payload_raw"));
      }
      var decoded := DecodePayload(data.payloadRaw.value);
      if decoded.Failure? {
        return Failure(decoded.error);
      }
      temperature := temperature[dev := decoded.value.temperature];
      humidity := humidity[dev := decoded.value.humidity];
      return Success(Reply(true));
    }
  }

  /**
   * Two accepted uplinks from the same device: the gauges show the second
   * reading only, and every other device keeps its values.
   */
  method TwoUplinks(store: GaugeStore, first: Envelope, second: Envelope, dev: string, a: Reading, b: Reading)
    requires store.Valid()
    requires Accept(first) == Success(Some(Update(dev, a)))
    requires Accept(second) == Success(Some(Update(dev, b)))
    modifies store
    ensures store.Valid()
    ensures store.temperature == old(store.temperature)[dev := b.temperature]
    ensures store.humidity == old(store.humidity)[dev := b.humidity]
  {
    ghost var t0, h0 := store.temperature, store.humidity;
    var r1 := store.SaveItem(first);
    ghost var t1, h1 := store.temperature, store.humidity;
    assert t1 == t0[dev := a.temperature] && h1 == h0[dev := a.humidity];
    var r2 := store.SaveItem(second);
    assert store.temperature == t1[dev := b.temperature] && store.humidity == h1[dev := b.humidity];
    OverwriteTwice(t0, dev, a.temperature, b.temperature);
    OverwriteTwice(h0, dev, a.humidity, b.humidity);
  }

  /** Setting a label twice leaves only the second value. */
  lemma OverwriteTwice(m: map<string, real>, k: string, x: real, y: real)
    ensures m[k := x][k := y] == m[k := y]
  {
  }
}
