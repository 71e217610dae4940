/**
 * `decode_payload`: the uplink of the RisingHF RHF1S001 temperature and
 * humidity sensor. Byte 1..2 is the raw temperature, little-endian; byte 3
 * the raw humidity; both are scaled linearly. The floating-point formulas
 * are stated over `real`, without rounding.
 */
module Payload {
  import opened Wrappers
  import opened Webhook
  import opened Base64

  /** A decoded reading: degrees Celsius and percent relative humidity. */
  datatype Reading = Reading(temperature: real, humidity: real)

  /** Python's `p[lo:hi]` for non-negative bounds: out-of-range bounds are clamped, never an error. */
  function Slice(p: seq<Byte>, lo: nat, hi: nat): (r: seq<Byte>)
    ensures lo <= hi <= |p| ==> r == p[lo..hi]
    ensures |p| <= lo ==> r == []
    ensures lo <= |p| <= hi ==> r == p[lo..]
    ensures hi < lo ==> r == []
  {
    var h := if hi < |p| then hi else |p|;
    var l := if lo < h then lo else h;
    p[l..h]
  }

  function Pow256(n: nat): (r: nat)
    ensures r >= 1
  {
    if n == 0 then 1 else 256 * Pow256(n - 1)
  }

  /** `int.from_bytes(s, byteorder='little', signed=False)`. */
  function FromLittleEndian(s: seq<Byte>): (n: nat)
    ensures n < Pow256(|s|)
  {
    if s == [] then 0 else s[0] + 256 * FromLittleEndian(s[1..])
  }

  /** Two bytes read little-endian: the low byte first. */
  lemma FromLittleEndianPair(lo: Byte, hi: Byte)
    ensures FromLittleEndian([lo, hi]) == lo + 256 * hi
  {
  }

  /**
   * `raw_t = int.from_bytes(p[1:3], byteorder='little', signed=False)`.
   * The slice is clamped, so a payload too short for it reads fewer bytes
   * instead of failing.
   */
  function RawTemperature(p: seq<Byte>): (rawT: nat)
    ensures rawT < 65536
    ensures |p| >= 3 ==> rawT == p[1] as int + 256 * p[2] as int
    ensures |p| == 2 ==> rawT == p[1]
    ensures |p| <= 1 ==> rawT == 0
  {
    var s := Slice(p, 1, 3);
    if |p| >= 3 then
      assert s == [p[1], p[2]];
      FromLittleEndianPair(p[1], p[2]);
      FromLittleEndian(s)
    else if |p| == 2 then
      assert s == [p[1]] && s[1..] == [];
      FromLittleEndian(s)
    else
      FromLittleEndian(s)
  }

  const TemperatureMin: real := -46.85
  const TemperatureMax: real := 175.72 * 65535.0 / 65536.0 - 46.85
  const HumidityMin: real := -6.0
  const HumidityMax: real := 125.0 * 255.0 / 256.0 - 6.0

  /** The datasheet's conversion of the 16-bit raw temperature to degrees Celsius. */
  function Temperature(rawT: int): (t: real)
    ensures 0 <= rawT < 65536 ==> TemperatureMin <= t <= TemperatureMax
    ensures rawT == 0 ==> t == TemperatureMin
    ensures rawT == 65535 ==> t == TemperatureMax
  {
    (175.72 * rawT as real) / 65536.0 - 46.85
  }

  /** The datasheet's conversion of the 8-bit raw humidity to percent. */
  function Humidity(rawH: int): (h: real)
    ensures 0 <= rawH < 256 ==> HumidityMin <= h <= HumidityMax
    ensures rawH == 0 ==> h == HumidityMin
    ensures rawH == 255 ==> h == HumidityMax
  {
    (125.0 * rawH as real) / 256.0 - 6.0
  }

  lemma TemperatureMonotone(a: int, b: int)
    requires a <= b
    ensures Temperature(a) <= Temperature(b)
  {
  }

  lemma HumidityMonotone(a: int, b: int)
    requires a <= b
    ensures Humidity(a) <= Humidity(b)
  {
  }

  /**
   * Everything `decode_payload` does after base64 decoding. The slice
   * `p[1:3]` never fails; the index `p[3]` fails on fewer than four bytes.
   */
  function DecodeBytes(p: seq<Byte>): (r: Result<Reading, Fault>)
    ensures r.Failure? <==> |p| < 4
    ensures r.Failure? ==> r.error == IndexError
    ensures r.Success? ==> r.value == Reading(Temperature(p[1] as int + 256 * p[2] as int), Humidity(p[3]))
    ensures r.Success? ==> TemperatureMin <= r.value.temperature <= TemperatureMax
    ensures r.Success? ==> HumidityMin <= r.value.humidity <= HumidityMax
  {
    var rawT := RawTemperature(p);
    if |p| <= 3 then Failure(IndexError)
    else
      var rawH := p[3];
      Success(Reading(Temperature(rawT), Humidity(rawH)))
  }

  /** `decode_payload(raw)`: base64-decode, then read the sensor fields. */
  function DecodePayload(raw: Value): (r: Result<Reading, Fault>)
    ensures !raw.Str? ==> r == Failure(TypeError)
    ensures raw.Str? && Decode(raw.s).None? ==> r == Failure(Base64Error)
    ensures raw.Str? && Decode(raw.s).Some? ==> r == DecodeBytes(Decode(raw.s).value)
  {
    match raw
    case Str(s) =>
      (match Decode(s)
       case None => Failure(Base64Error)
       case Some(p) => DecodeBytes(p))
    case _ => Failure(TypeError)
  }

  /** Only bytes 1, 2 and 3 matter: byte 0 and anything past byte 3 are ignored. */
  lemma DecodeBytesIgnoresOtherBytes(p: seq<Byte>, q: seq<Byte>)
    requires |p| >= 4 && |q| >= 4 && p[1..4] == q[1..4]
    ensures DecodeBytes(p) == DecodeBytes(q)
  {
  }

  /** A payload of at most four base64 characters carries at most three bytes and is rejected. */
  lemma ShortPayloadFails(s: string)
    requires |s| <= 4
    ensures DecodePayload(Str(s)).Failure?
  {
  }

  /** The symbols of the sample uplink `01 00 64 32`: one full quantum, then one byte padded. */
  lemma SampleSymbols()
    ensures EncodeSymbols([0x01, 0x00, 0x64, 0x32]) == [0, 16, 1, 36, 12, 32, PadSymbol, PadSymbol]
  {
    var p: seq<Byte> := [0x01, 0x00, 0x64, 0x32];
    assert p[3..] == [0x32];
  }

  /** The sample uplink `01 00 64 32` is sent as "AQBkMg==". */
  lemma SampleEncoding()
    ensures Encode([0x01, 0x00, 0x64, 0x32]) == "AQBkMg=="
  {
    SampleSymbols();
    var v: seq<Symbol> := [0, 16, 1, 36, 12, 32, PadSymbol, PadSymbol];
    assert CharOf(0) == 'A' && CharOf(16) == 'Q' && CharOf(1) == 'B' && CharOf(36) == 'k';
    assert CharOf(12) == 'M' && CharOf(32) == 'g';
  }

  lemma SampleDecoding()
    ensures Decode("AQBkMg==") == Some([0x01, 0x00, 0x64, 0x32])
  {
    SampleEncoding();
    DecodeEncode([0x01, 0x00, 0x64, 0x32]);
  }

  lemma SampleReading()
    ensures DecodeBytes([0x01, 0x00, 0x64, 0x32]) ==
      Success(Reading(175.72 * 25600.0 / 65536.0 - 46.85, 125.0 * 50.0 / 256.0 - 6.0))
  {
  }

  /** Decoding the sample uplink gives raw_t = 25600 and raw_h = 50. */
  lemma SampleUplink()
    ensures DecodePayload(Str("AQBkMg==")) ==
      Success(Reading(175.72 * 25600.0 / 65536.0 - 46.85, 125.0 * 50.0 / 256.0 - 6.0))
  {
    SampleDecoding();
    SampleReading();
  }
}
