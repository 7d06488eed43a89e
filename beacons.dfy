/**
 * The BLE beacon handlers of main.rs: hex framing of beacon payloads, the
 * contact sensor's change suppression, and the values written for
 * thermometers, contact sensors and valves. Decryption (`parse_atc`,
 * `parse_contact_sensor`) is a parameter.
 */
module Beacons {
  import opened Wrappers
  import opened JsonValue

  newtype byte = x: int | 0 <= x < 256

  // ---------------------------------------------------------------- hex

  const HexDigits: string := "0123456789abcdef"

  /** `{:02x}`: two lowercase hex digits. */
  function HexByte(b: byte): (s: string)
    ensures |s| == 2
  {
    [HexDigits[b as int / 16], HexDigits[b as int % 16]]
  }

  /** `encode_hex`: the bytes as lowercase hex, two digits each. */
  function HexEncode(bs: seq<byte>): (s: string)
    ensures |s| == 2 * |bs|
  {
    if bs == [] then "" else HexByte(bs[0]) + HexEncode(bs[1..])
  }

  /** The value of one lowercase hex digit (none for any other character). */
  function HexValue(c: char): Option<nat>
  {
    if '0' <= c <= '9' then Some(c as int - '0' as int)
    else if 'a' <= c <= 'f' then Some(c as int - 'a' as int + 10)
    else None
  }

  /** Two hex digits back to the byte they spell. */
  function ParseHexByte(s: string): Option<byte>
  {
    if |s| != 2 then None
    else
      match (HexValue(s[0]), HexValue(s[1]))
      case (Some(hi), Some(lo)) => if hi < 16 && lo < 16 then Some((hi * 16 + lo) as byte) else None
      case _ => None
  }

  /** Hex text back to bytes. */
  function HexDecode(s: string): Option<seq<byte>>
    decreases |s|
  {
    if s == [] then Some([])
    else if |s| < 2 then None
    else
      match (ParseHexByte(s[..2]), HexDecode(s[2..]))
      case (Some(b), Some(rest)) => Some([b] + rest)
      case _ => None
  }

  lemma HexDigitValue(d: nat)
    requires d < 16
    ensures HexValue(HexDigits[d]) == Some(d)
  {
  }

  /** Every byte survives its two hex digits. */
  lemma HexByteRoundTrip(b: byte)
    ensures ParseHexByte(HexByte(b)) == Some(b)
  {
    HexDigitValue(b as int / 16);
    HexDigitValue(b as int % 16);
  }

  /** Hex encoding is undone by hex decoding. */
  lemma {:induction false} HexRoundTrip(bs: seq<byte>)
    ensures HexDecode(HexEncode(bs)) == Some(bs)
    decreases |bs|
  {
    if bs != [] {
      var s := HexEncode(bs);
      assert s[..2] == HexByte(bs[0]) && s[2..] == HexEncode(bs[1..]);
      HexByteRoundTrip(bs[0]);
      HexRoundTrip(bs[1..]);
      assert [bs[0]] + bs[1..] == bs;
    }
  }

  // ---------------------------------------------------------------- rssi

  /** `rssi as i8`: the low eight bits read as two's complement. */
  function AsI8(rssi: int): (r: int)
    ensures -128 <= r < 128
    ensures (r - rssi) % 256 == 0
  {
    (rssi + 128) % 256 - 128
  }

  /** `format!("{:02x}", rssi as i8)`: the bit pattern of the i8, two lowercase digits. */
  function RssiHex(rssi: int): string
  {
    HexByte((rssi % 256) as byte)
  }

  /** The i8 a byte's bit pattern stands for. */
  function ByteAsI8(b: byte): int
  {
    if b < 128 then b as int else b as int - 256
  }

  /** The two digits spell the i8 the RSSI truncates to; an RSSI in i8 range is kept exactly. */
  lemma RssiHexMeaning(rssi: int)
    ensures ParseHexByte(RssiHex(rssi)).Some?
    ensures ByteAsI8(ParseHexByte(RssiHex(rssi)).value) == AsI8(rssi)
    ensures -128 <= rssi < 128 ==> AsI8(rssi) == rssi
  {
    HexByteRoundTrip((rssi % 256) as byte);
  }

  /** The frame the contact decoder gets: the length byte 0x1d, the advertisement, the RSSI byte. */
  function ContactFrame(message: string, rssi: int): string
  {
    "1d" + message + RssiHex(rssi)
  }

  lemma ContactFrameLayout(message: string, rssi: int)
    ensures var f := ContactFrame(message, rssi);
            && |f| == |message| + 4
            && f[..2] == "1d"
            && f[2..|f| - 2] == message
            && ByteAsI8(ParseHexByte(f[|f| - 2..]).value) == AsI8(rssi)
  {
    var f := ContactFrame(message, rssi);
    assert f[|f| - 2..] == RssiHex(rssi);
    RssiHexMeaning(rssi);
  }

  /** The advertisement is long enough for the contact decoder. */
  predicate ContactLongEnough(message: string)
  {
    |message| >= 58
  }

  /** On decoded bytes the gate asks for at least 29 bytes. */
  lemma ContactGateInBytes(bs: seq<byte>)
    ensures ContactLongEnough(HexEncode(bs)) <==> |bs| >= 29
  {
  }

  // ---------------------------------------------------------------- values written

  /** What `parse_contact_sensor` reports; every state other than Open counts as closed. */
  datatype ContactStatus = Open | Closed

  /** What `parse_atc` reports. */
  datatype AtcReading = AtcReading(temperature: Json, humidity: Json, battery: Json)

  /** The derived status bit: 1 iff the contact is not open. */
  function ContactBit(s: ContactStatus): nat
  {
    if s == Open then 0 else 1
  }

  /**
   * The unwraps made on the stored contact value as soon as the hex message
   * is long enough: `token`, `id`, `mac_address` and `area_name`.
   */
  predicate ContactIdentityDefined(stored: Fields)
  {
    && "token" in stored && stored["token"].JStr?
    && "id" in stored && IsU64(stored["id"])
    && "mac_address" in stored && stored["mac_address"].JStr?
    && "area_name" in stored && stored["area_name"].JStr?
  }

  /** The `status` unwrap, made only once the sensor frame has been decoded. */
  predicate ContactStatusDefined(stored: Fields)
  {
    "status" in stored ==> IsU64(stored["status"])
  }

  /** Every unwrap on the stored contact value along the path that may write. */
  predicate ContactStoredDefined(stored: Fields)
  {
    ContactIdentityDefined(stored) && ContactStatusDefined(stored)
  }

  /**
   * The contact update: the value written when the derived bit differs from
   * the stored `status` or none is stored, and nothing otherwise.
   */
  function ContactWrite(stored: Fields, state: ContactStatus, now: nat): (r: Option<Fields>)
    requires ContactStoredDefined(stored)
    ensures r.Some? ==>
              && r.value.Keys == {"status", "token", "last_update_timestamp", "mac_address", "id", "area_name"}
              && r.value["last_update_timestamp"] == JInt(now)
  {
    var bit := ContactBit(state);
    if "status" in stored && stored["status"].i == bit then None
    else Some(map[
      "status" := JInt(bit),
      "token" := stored["token"],
      "last_update_timestamp" := JInt(now),
      "mac_address" := stored["mac_address"],
      "id" := stored["id"],
      "area_name" := stored["area_name"]])
  }

  /**
   * Change suppression: a write happens exactly when the derived bit differs
   * from the stored status or none is stored; the written value keeps the
   * sensor's identity and credentials and carries the new bit.
   */
  lemma ContactSuppression(stored: Fields, state: ContactStatus, now: nat)
    requires ContactStoredDefined(stored)
    ensures ContactWrite(stored, state, now).None? <==>
            "status" in stored && stored["status"] == JInt(ContactBit(state))
    ensures ContactWrite(stored, state, now).Some? ==>
              var v := ContactWrite(stored, state, now).value;
              && v["status"] == JInt(ContactBit(state))
              && ContactStoredDefined(v)
              && (forall k | k in {"token", "mac_address", "id", "area_name"} :: v[k] == stored[k])
  {
  }

  /** A repeated report is suppressed once its value has been written. */
  lemma ContactIdempotent(stored: Fields, state: ContactStatus, now: nat, later: nat)
    requires ContactStoredDefined(stored)
    requires ContactWrite(stored, state, now).Some?
    ensures ContactStoredDefined(ContactWrite(stored, state, now).value)
    ensures ContactWrite(ContactWrite(stored, state, now).value, state, later).None?
  {
  }

  /** A state change after a write is written again. */
  lemma ContactFlip(stored: Fields, now: nat, later: nat)
    requires ContactStoredDefined(stored)
    requires ContactWrite(stored, Open, now).Some?
    ensures ContactWrite(ContactWrite(stored, Open, now).value, Closed, later).Some?
  {
  }

  /** The stored thermometer value the handler unwraps. */
  predicate ThermometerStoredDefined(stored: Fields)
  {
    && "token" in stored && stored["token"].JStr?
    && "id" in stored && IsU64(stored["id"])
    && "mac_address" in stored && stored["mac_address"].JStr?
    && "name" in stored && stored["name"].JStr?
    && "area_name" in stored && stored["area_name"].JStr?
  }

  /** The thermometer value: the reading with the sensor's identity; it always overwrites. */
  function ThermometerValue(stored: Fields, m: AtcReading, now: nat): (v: Fields)
    requires ThermometerStoredDefined(stored)
    ensures ThermometerStoredDefined(v)
    ensures "temperature" in v && "humidity" in v && "battery" in v && "last_update_timestamp" in v
    ensures v["temperature"] == m.temperature && v["humidity"] == m.humidity && v["battery"] == m.battery
    ensures forall k | k in {"token", "mac_address", "id", "name", "area_name"} :: v[k] == stored[k]
  {
    map[
      "temperature" := m.temperature,
      "humidity" := m.humidity,
      "battery" := m.battery,
      "token" := stored["token"],
      "mac_address" := stored["mac_address"],
      "id" := stored["id"],
      "last_update_timestamp" := JInt(now),
      "name" := stored["name"],
      "area_name" := stored["area_name"]]
  }

  /** The valve value the handler unwraps. */
  predicate ValveStoredDefined(stored: Fields)
  {
    && "mac_address" in stored && stored["mac_address"].JStr?
    && "name" in stored && stored["name"].JStr?
    && "area_name" in stored && stored["area_name"].JStr?
    && "id" in stored && IsU64(stored["id"])
  }

  /** A valve beacon is a state report when its payload is "0" or "1"; anything else is a signal report. */
  predicate IsValveState(payload: string)
  {
    payload == "0" || payload == "1"
  }

  /** The valve value written for a state beacon: `status` is true iff the payload is "1". */
  function ValveValue(stored: Fields, payload: string, now: nat): (v: Fields)
    requires ValveStoredDefined(stored)
    ensures "status" in v && v["status"] == JBool(payload == "1")
    ensures ValveStoredDefined(v)
    ensures forall k | k in {"mac_address", "id", "name", "area_name"} :: v[k] == stored[k]
  {
    map[
      "status" := JBool(payload == "1"),
      "mac_address" := stored["mac_address"],
      "id" := stored["id"],
      "last_update_timestamp" := JInt(now),
      "name" := stored["name"],
      "area_name" := stored["area_name"]]
  }
}
