# ttn2prom in Dafny

ttn2prom receives uplink webhooks from The Things Network (v2 envelope shape)
and republishes readings from RisingHF RHF1S001 temperature and humidity
sensors as two Prometheus gauges, `lorasensor_temperature_celsius` and
`lorasensor_humidity_percent`, labelled by `device`. This project models the
program's core:

- the interest filter `is_interesting`. Only a device id starting with
  `"risinghf"` on port 8 is processed. The Python `and` short-circuits, and
  a missing key raises `KeyError`;
- the payload decoder `decode_payload`. It base64-decodes the payload, reads
  bytes 1..2 as a little-endian 16-bit raw temperature and byte 3 as the raw
  humidity, and applies the sensor's linear conversions;
- the effect of the webhook handler `save_item` on the two gauges. These are
  modelled as a class holding two maps from device to last value.

Modules, one per component: `Wrappers` (Option, Result), `Webhook` (the
parsed envelope, JSON values and the Python exceptions), `Base64` (strict
decoding per section 4 of RFC 4648), `Payload`, `Filter`, `Gauges`.

An exception that escapes `save_item` is modelled as `Failure(fault)`. In
the running program the web framework turns it into a server error. A normal
return is `Success(Reply(true))`, the body `{"success": true}`.

Missing and unexpected fields:
- A missing `dev_id`, a missing `port` once the prefix has matched, or a
  missing `payload_raw` on an accepted envelope raises `KeyError`. A missing
  field is never treated as uninteresting. A non-string `dev_id` raises
  `AttributeError`.
- This version reads TTN v2 envelopes only. It has no v3 envelope shape, no
  battery voltage and no data timestamp.

## Model

| member | source | states |
|---|---|---|
| `Filter.IsInteresting` | ttn2prom.py:8-10 | Success(true) exactly when dev_id is a string starting with "risinghf" and port equals 8; a missing dev_id is KeyError("dev_id"), a non-string one AttributeError; a missing port is KeyError("port") exactly when the prefix matched; without the prefix the answer is false and port is never consulted; with the prefix and a port present the answer is whether the port equals 8, never a fault |
| `Filter.StartsWith` | ttn2prom.py:10 | `str.startswith` holds exactly when the prefix is a prefix of the string |
| `Filter.IsSensorPort` | ttn2prom.py:10 | `port == 8` holds exactly for the JSON number 8 (8 and 8.0 alike); a string "8" is not the port |
| `Filter.OtherDeviceIgnored` | ttn2prom.py:10 | dev_id "other-device" yields false whatever the port, even when port is absent |
| `Filter.OtherPortIgnored` | ttn2prom.py:10 | "risinghf-001" on port 3 yields false |
| `Filter.SensorAccepted` | ttn2prom.py:10 | "risinghf-001" on port 8 yields true |
| `Base64.ValueOf` | ttn2prom.py:17 | a character accepted by the decoder is the alphabet character of the value returned |
| `Base64.ValueOfCharOf` | ttn2prom.py:17 | every alphabet character decodes to the value it encodes |
| `Base64.ValueOfRejectsOnlyNonAlphabet` | ttn2prom.py:17 | a rejected character is not in the alphabet |
| `Base64.Decode` | ttn2prom.py:17 | a string that decodes holds only alphabet characters and the pad `=`, and the pad appears only in its last two positions |
| `Base64.SymbolsAt` | ttn2prom.py:17 | a string maps to symbols exactly when each of its characters is in the alphabet or is the pad, and then each symbol is that character's |
| `Base64.DecodeLength` | ttn2prom.py:17 | a decodable string has a length that is a multiple of 4 and yields between 3/4 of its length minus 2 and 3/4 of its length bytes |
| `Base64.DecodeEncode` | ttn2prom.py:17 | decoding the RFC 4648 encoding of any byte string returns that byte string |
| `Payload.Slice` | ttn2prom.py:18 | Python slicing `p[lo:hi]` never fails: in range it is the subsequence, past the end it is clamped or empty, and it is empty when hi < lo |
| `Payload.FromLittleEndian` | ttn2prom.py:18 | `int.from_bytes(..., 'little', signed=False)` of n bytes is below 256^n |
| `Payload.FromLittleEndianPair` | ttn2prom.py:18 | two bytes read little-endian are low + 256 * high |
| `Payload.RawTemperature` | ttn2prom.py:18 | raw_t is below 65536, equals p[1] + 256 * p[2] when there are three bytes or more, p[1] with two, 0 with fewer |
| `Payload.TemperatureMonotone` | ttn2prom.py:20 | the temperature conversion is non-decreasing in raw_t |
| `Payload.Temperature` | ttn2prom.py:20 | every 16-bit raw_t converts into [-46.85, 175.72 * 65535 / 65536 - 46.85]; raw_t 0 and 65535 reach the two ends |
| `Payload.HumidityMonotone` | ttn2prom.py:21 | the humidity conversion is non-decreasing in raw_h |
| `Payload.Humidity` | ttn2prom.py:21 | every 8-bit raw_h converts into [-6, 125 * 255 / 256 - 6]; raw_h 0 and 255 reach the two ends |
| `Payload.DecodeBytes` | ttn2prom.py:18-21 | fails, with IndexError, exactly when fewer than 4 bytes were decoded; otherwise the reading is the conversions of p[1] + 256 * p[2] and p[3], within both ranges |
| `Payload.DecodePayload` | ttn2prom.py:12-22 | a non-string payload is TypeError, malformed base64 is Base64Error, otherwise the result is that of the decoded bytes |
| `Payload.DecodeBytesIgnoresOtherBytes` | ttn2prom.py:17-22 | two payloads of at least 4 bytes that agree on bytes 1..3 decode to the same reading: byte 0 and bytes from 4 on are ignored |
| `Payload.ShortPayloadFails` | ttn2prom.py:17-19 | a payload string of at most 4 characters carries at most 3 bytes and always fails |
| `Payload.SampleUplink` | ttn2prom.py:12-22 | "AQBkMg==" (bytes 01 00 64 32) decodes to raw_t = 25600 and raw_h = 50, giving 175.72 * 25600 / 65536 - 46.85 degrees and 125 * 50 / 256 - 6 percent |
| `Gauges.Accept` | ttn2prom.py:34-38 | the handler's decision before any gauge is written: the filter's fault is propagated; an uninteresting envelope gives None; an interesting one without payload_raw is KeyError("payload_raw"); a decode fault is propagated; otherwise the update names the envelope's dev_id, which starts with "risinghf", and carries the decoded reading |
| `Gauges.SampleEnvelopeAccepted` | ttn2prom.py:35-43 | the sample uplink from "risinghf-001" on port 8 becomes an update of that device with the sample reading |
| `Gauges.OtherDeviceIgnoredWhateverPayload` | ttn2prom.py:35 | an envelope from "other-device" is ignored whatever its port and payload, even a missing or malformed one |
| `Gauges.GaugeStore.constructor` | ttn2prom.py:27-28 | both gauges start empty, so a scrape before the first webhook lists no device |
| `Gauges.GaugeStore.SaveItem` | ttn2prom.py:30-45 | on a fault both gauges are unchanged, since both sets come after the decode; an ignored envelope leaves them unchanged and answers success; an accepted one overwrites only the device's two entries; every return answers success; devices are never removed; the invariant (same devices in both gauges, all RisingHF, all values in the sensor's ranges) is kept |
| `Gauges.TwoUplinks` | ttn2prom.py:42-43 | after two accepted uplinks from the same device the gauges hold the second reading: the last write wins and other devices keep their values |

## Left out

- HTTP routing and serving through Klein (`app`, the route decorators, `app.run`), and the `Content-Type` header. These are framework I/O.
- Reading the request body and `json.loads`. The parsed envelope is the input. A JSON document that is not an object is not modelled.
- JSON values are reduced to strings, numbers (as exact reals) and everything else. A number literal that rounds to 8.0 as a Python float is not modelled.
- Base64.Decode: strict decoding. It rejects every character outside the alphabet and any misplaced padding. Python's default `b64decode` discards non-alphabet characters and ignores data after the padding, so it accepts some strings the model rejects. Both accept the unused pad bits whatever their value.
- IEEE-754 rounding in the two conversions. The formulas are stated over `real`.
- The `print` of each accepted reading (ttn2prom.py:40). It is stdout I/O. It runs after the decode and before the two `set` calls, so if it raised (for example `UnicodeEncodeError` for a non-ASCII `dev_id` on a stdout that cannot encode it), no gauge would be written. The model always writes the gauges once the decode has succeeded.
- The `/metrics` endpoint, `MetricsResource`, the exposition text format and the internals of `prometheus_client.Gauge`. Only the keyed last-value overwrite is modelled.
- Concurrency: the program runs on a single-threaded event loop, and the decode-and-set sequence has no suspension point, so the model is sequential.
