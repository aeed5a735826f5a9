/** The Go telemetry frame (examples/appdata/go/telemetry.go): a 128-bit address, two
    fixed arrays, eight fields behind one length check, and a map. */
module TelemetryRecords {
  import opened Common
  import opened LittleEndian
  import opened Layout
  import opened Records
  import opened Blocks
  import Int128

  /** What a frame says: a nil address is zero, floats are their bits. */
  datatype Telemetry = Telemetry(
    deviceID: int, ipv6: int, localIP: Four, firmware: seq<byte>, bootCount: int, rssi: int, temperature: int,
    clockDrift: int, battery: int, latitude: int, longitude: int, humidity: Option<int>, accel: Three,
    visibleCells: seq<int>, packetCounts: map<seq<byte>, int>, gpsFix: bool, signature: seq<byte>)

  function TelemetryFmt(i: nat): Fmt
    requires i < 17
  {
    match i
    case 0 => UInt(8)
    case 1 => UInt(16)
    case 2 => Fixed(UInt(1), 4)
    case 3 => Blob
    case 4 => NumFmt(2, false)
    case 5 => NumFmt(1, true)
    case 6 => NumFmt(2, true)
    case 7 => NumFmt(4, true)
    case 8 => NumFmt(4, false)
    case 9 => NumFmt(8, false)
    case 10 => NumFmt(8, false)
    case 11 => Optional(UInt(4))
    case 12 => Fixed(NumFmt(2, true), 3)
    case 13 => List(NumFmt(4, false))
    case 14 => Dict(UInt(8))
    case 15 => Flag
    case _ => Blob
  }

  /** The values of the fields, the map of packet counts as `counts`. */
  function TelemetryVal(f: Telemetry, counts: Val, i: nat): Val
    requires i < 17
  {
    match i
    case 0 => Num(f.deviceID)
    case 1 => Num(f.ipv6)
    case 2 => Many(ByteVals(f.localIP))
    case 3 => Text(f.firmware)
    case 4 => Num(f.bootCount)
    case 5 => Num(f.rssi)
    case 6 => Num(f.temperature)
    case 7 => Num(f.clockDrift)
    case 8 => Num(f.battery)
    case 9 => Num(f.latitude)
    case 10 => Num(f.longitude)
    case 11 => OptVal(f.humidity, NumVal)
    case 12 => Many(Vals(f.accel, NumVal))
    case 13 => Many(Vals(f.visibleCells, NumVal))
    case 14 => counts
    case 15 => Bit(f.gpsFix)
    case _ => Text(f.signature)
  }

  function Formats(): (fs: seq<Fmt>)
    ensures |fs| == 17 && forall i | 0 <= i < 17 :: fs[i] == TelemetryFmt(i)
  {
    seq(17, i requires 0 <= i < 17 => TelemetryFmt(i))
  }

  function Values(f: Telemetry, counts: Val): (vs: seq<Val>)
    ensures |vs| == 17 && forall i | 0 <= i < 17 :: vs[i] == TelemetryVal(f, counts, i)
  {
    seq(17, i requires 0 <= i < 17 => TelemetryVal(f, counts, i))
  }

  const TELEMETRY := Record(Formats())

  /** The map listed in this order. */
  function Listing(f: Telemetry, keys: seq<seq<byte>>): Val
    requires forall k | k in keys :: k in f.packetCounts
  {
    Entries(keys, Listed(f.packetCounts, keys, NumVal))
  }

  /** The values a decoder gives for the frame. */
  function DecodedValues(f: Telemetry): seq<Val> { Values(f, Mapping(Mapped(f.packetCounts, NumVal))) }

  // ---- writing -------------------------------------------------------------

  lemma CountsShaped(m: map<seq<byte>, int>, keys: seq<seq<byte>>)
    requires Lists(keys, m)
    ensures (forall k | k in keys :: k in m) && Shaped(Dict(UInt(8)), Entries(keys, Listed(m, keys, NumVal)))
  {
    hide Encode, EncodeEntries, Listed, AllDifferent;
    forall k | k in m ensures Shaped(UInt(8), NumVal(m[k])) { NumShaped(8, m[k]); }
    DictListed(UInt(8), m, keys, NumVal);
  }

  lemma FieldShaped(f: Telemetry, keys: seq<seq<byte>>, i: nat)
    requires i < 17 && Lists(keys, f.packetCounts)
    ensures (forall k | k in keys :: k in f.packetCounts) &&
            Shaped(TelemetryFmt(i), TelemetryVal(f, Listing(f, keys), i))
  {
    hide Vals, ByteVals, Lists, Listed;
    CountsShaped(f.packetCounts, keys);
    match i
    case 2 => BytesShaped(f.localIP);
    case 11 => OptShaped(UInt(4), f.humidity, NumVal);
    case 12 => NumbersShaped(2, true, f.accel);
    case 13 => NumbersShaped(4, false, f.visibleCells);
    case _ =>
  }

  lemma RecordShaped(f: Telemetry, keys: seq<seq<byte>>)
    requires Lists(keys, f.packetCounts)
    ensures forall k | k in keys :: k in f.packetCounts
    ensures forall j | 0 <= j < 17 :: Shaped(Formats()[j], Values(f, Listing(f, keys))[j])
  {
    hide Shaped, TelemetryFmt, TelemetryVal, Formats, Values, Lists;
    ListsAre(keys, f.packetCounts);
    forall j | 0 <= j < 17 ensures Shaped(Formats()[j], Values(f, Listing(f, keys))[j]) { FieldShaped(f, keys, j); }
  }

  /** The first `i` fields are out. */
  ghost predicate Out(f: Telemetry, counts: Val, i: nat, buf: seq<byte>) {
    WroteFields(Formats(), Values(f, counts), i, buf)
  }

  lemma FirstOut(f: Telemetry, keys: seq<seq<byte>>)
    requires Lists(keys, f.packetCounts)
    ensures (forall k | k in keys :: k in f.packetCounts) && Out(f, Listing(f, keys), 0, [])
  {
    hide Shaped, WroteFields, Lists;
    RecordShaped(f, keys);
    StartWriting(Formats(), Values(f, Listing(f, keys)));
  }

  lemma NextOut(f: Telemetry, counts: Val, i: nat, buf: seq<byte>)
    requires i < 17 && Out(f, counts, i, buf)
    ensures Shaped(TelemetryFmt(i), TelemetryVal(f, counts, i))
    ensures Out(f, counts, i + 1, buf + Encode(TelemetryFmt(i), TelemetryVal(f, counts, i)))
  {
    hide Encode, Shaped, WroteFields, TelemetryFmt, TelemetryVal;
    Next(Formats(), Values(f, counts), i, buf);
  }

  lemma AllOut(f: Telemetry, counts: Val, buf: seq<byte>)
    requires Out(f, counts, 17, buf)
    ensures Shaped(TELEMETRY, Fields(Values(f, counts))) && buf == Encode(TELEMETRY, Fields(Values(f, counts)))
  {
    hide Encode, Shaped, WroteFields, Formats, Values;
    Written(Formats(), Values(f, counts), buf);
  }

  /** Up to the firmware; a nil address is written as zero. */
  method AppendHead(f: Telemetry, ipv6: Option<int>, ghost counts: Val, buf0: seq<byte>) returns (buf: seq<byte>)
    requires f.ipv6 == OrZero(ipv6) && Out(f, counts, 0, buf0)
    ensures Out(f, counts, 4, buf)
  {
    hide Encode, EncodeAll, Out, Shaped, Vals, ByteVals, NumFmt;
    buf := buf0;
    NextOut(f, counts, 0, buf);
    buf := AppendUInt(buf, f.deviceID, 8);
    NextOut(f, counts, 1, buf);
    Unsigned16(f.ipv6);
    buf := Int128.AppendInt128(buf, ipv6);
    NextOut(f, counts, 2, buf);
    FourBytes(f.localIP);
    buf := buf + f.localIP;
    NextOut(f, counts, 3, buf);
    buf := AppendLenStr(buf, f.firmware);
  }

  lemma Unsigned16(n: int)
    ensures Shaped(UInt(16), Num(n)) && Encode(UInt(16), Num(n)) == Int128.Bytes128(n)
  {
    Bytes128Is(n, false);
  }

  /** The scalars. */
  method AppendScalars(f: Telemetry, ghost counts: Val, buf0: seq<byte>) returns (buf: seq<byte>)
    requires Out(f, counts, 4, buf0)
    ensures Out(f, counts, 11, buf)
  {
    hide Encode, EncodeAll, Out, Shaped, Vals, ByteVals, NumFmt;
    buf := buf0;
    NextOut(f, counts, 4, buf);
    buf := AppendNum(buf, f.bootCount, 2, false);
    NextOut(f, counts, 5, buf);
    buf := AppendNum(buf, f.rssi, 1, true);
    NextOut(f, counts, 6, buf);
    buf := AppendNum(buf, f.temperature, 2, true);
    NextOut(f, counts, 7, buf);
    buf := AppendNum(buf, f.clockDrift, 4, true);
    NextOut(f, counts, 8, buf);
    buf := AppendNum(buf, f.battery, 4, false);
    NextOut(f, counts, 9, buf);
    buf := AppendNum(buf, f.latitude, 8, false);
    NextOut(f, counts, 10, buf);
    buf := AppendNum(buf, f.longitude, 8, false);
  }

  /** The optional value, the array, the list, the map in the order of its keys, and the
      end of the frame. */
  method AppendLast(f: Telemetry, keys: seq<seq<byte>>, buf0: seq<byte>) returns (buf: seq<byte>)
    requires Lists(keys, f.packetCounts) && (forall k | k in keys :: k in f.packetCounts)
    requires Out(f, Listing(f, keys), 11, buf0)
    ensures Shaped(TELEMETRY, Fields(Values(f, Listing(f, keys)))) &&
            buf == Encode(TELEMETRY, Fields(Values(f, Listing(f, keys))))
  {
    hide Encode, EncodeAll, Out, Shaped, Vals, ByteVals, NumFmt, Lists, Listed;
    ghost var counts := Listing(f, keys);
    buf := buf0;
    NextOut(f, counts, 11, buf);
    buf := AppendOptNum(buf, f.humidity, 4);
    NextOut(f, counts, 12, buf);
    ThreeBytes(f.accel);
    buf := AppendEach(buf, f.accel, 2, true);
    NextOut(f, counts, 13, buf);
    buf := AppendNumbers(buf, f.visibleCells, 4, false);
    NextOut(f, counts, 14, buf);
    buf := AppendCounts(buf, f.packetCounts, keys);
    NextOut(f, counts, 15, buf);
    buf := AppendFlag(buf, f.gpsFix);
    NextOut(f, counts, 16, buf);
    buf := AppendLenStr(buf, f.signature);
    AllOut(f, counts, buf);
  }

  // ---- reading -------------------------------------------------------------

  /** The first values are those a decoder gives for the frame. */
  ghost predicate Holds(vs: seq<Val>, f: Telemetry, to: nat) {
    |vs| == 17 && to <= 17 &&
      forall i | 0 <= i < to :: vs[i] == TelemetryVal(f, Mapping(Mapped(f.packetCounts, NumVal)), i)
  }

  const BLANK := Telemetry(0, 0, [0, 0, 0, 0], [], 0, 0, 0, 0, 0, 0, 0, None, [0, 0, 0], [], map[], false, [])

  /** Up to the firmware; the sign of the address is taken away. */
  method ReadHead(b: seq<byte>) returns (v: Verdict, f: Telemetry, t: seq<byte>, ghost vs: seq<Val>)
    ensures !v.UnknownOrdinal? && (v.Short? ==> DecodeFields(Formats(), b) == Truncated)
    ensures v.Done? ==> Filled(Formats(), b, vs, 4, t) && Holds(vs, f, 4)
  {
    hide Decode, DecodeFields, Filled, Vals, ByteVals, NumFmt, Formats, Values, Mapped;
    f, t, v, vs := BLANK, b, Short, Values(BLANK, Nothing);
    FillStart(Formats(), b, vs);
    FillFails(Formats(), b, vs, 0, t);
    var id := ReadUInt(t, 8);
    if !id.Got? { return; }
    vs := Fill(Formats(), b, vs, 0, t, Num(id.value), id.rest);
    FillFails(Formats(), b, vs, 1, id.rest);
    var ip := ReadInt128Of(id.rest);
    if !ip.Got? { return; }
    var ipv6 := ip.value;
    if ipv6 < 0 { ipv6 := ipv6 + Int128.TWO128; }
    vs := Fill(Formats(), b, vs, 1, id.rest, Num(ipv6), ip.rest);
    t := ip.rest;
    FillFails(Formats(), b, vs, 2, t);
    ShortFour(t);
    if |t| < 4 { return; }
    FourDecode(t);
    vs := Fill(Formats(), b, vs, 2, t, Many(ByteVals(t[..4])), t[4..]);
    FillFails(Formats(), b, vs, 3, t[4..]);
    var firmware := ReadLenStr(t[4..]);
    if !firmware.Got? { return; }
    vs := Fill(Formats(), b, vs, 3, t[4..], Text(firmware.value), firmware.rest);
    f := f.(deviceID := id.value, ipv6 := ipv6, localIP := t[..4], firmware := firmware.value);
    t, v := firmware.rest, Done;
  }

  /** The 30 bytes of the scalars and the presence byte behind their one check. */
  lemma ScalarsShort(b: seq<byte>, vs: seq<Val>, t: seq<byte>)
    requires Filled(Formats(), b, vs, 4, t) && |t| < 30
    ensures DecodeFields(Formats(), b) == Truncated
  {
    hide Filled, Formats, DecodeFields, RunWidth;
    var fs := Formats();
    RunNone(fs, 11);
    RunStep(fs, 10, 11);
    RunStep(fs, 9, 11);
    RunStep(fs, 8, 11);
    RunStep(fs, 7, 11);
    RunStep(fs, 6, 11);
    RunStep(fs, 5, 11);
    RunStep(fs, 4, 11);
    FillShort(fs, b, vs, 4, t, 7);
  }

  /** One scalar at its offset, as field `i`. */
  method ScalarAt(ghost b: seq<byte>, ghost vs: seq<Val>, ghost i: nat, t: seq<byte>, off: nat, k: nat, signed: bool)
    returns (n: int, ghost ws: seq<Val>)
    requires |vs| == 17 && i < 17 && off + k <= |t| && Filled(Formats(), b, vs, i, t[off..])
    requires TelemetryFmt(i) == NumFmt(k, signed)
    ensures ws == vs[i := Num(n)] && Filled(Formats(), b, ws, i + 1, t[off + k..])
  {
    hide Decode, Filled, TelemetryFmt, NumFmt, Formats;
    n := NumAt(t, off, k, signed);
    ws := Fill(Formats(), b, vs, i, t[off..], Num(n), t[off + k..]);
  }

  method ReadScalars(ghost b: seq<byte>, f0: Telemetry, t: seq<byte>, ghost vs0: seq<Val>)
    returns (f: Telemetry, ghost vs: seq<Val>)
    requires |t| >= 30 && Filled(Formats(), b, vs0, 4, t) && Holds(vs0, f0, 4)
    ensures Filled(Formats(), b, vs, 11, t[29..]) && Holds(vs, f, 11)
  {
    hide Decode, DecodeFields, Filled, ByteVals, NumFmt, Formats, Mapped;
    vs := vs0;
    assert t[0..] == t;
    var boot, rssi, temp, drift, volts, lat, long;
    boot, vs := ScalarAt(b, vs, 4, t, 0, 2, false);
    rssi, vs := ScalarAt(b, vs, 5, t, 2, 1, true);
    temp, vs := ScalarAt(b, vs, 6, t, 3, 2, true);
    drift, vs := ScalarAt(b, vs, 7, t, 5, 4, true);
    volts, vs := ScalarAt(b, vs, 8, t, 9, 4, false);
    lat, vs := ScalarAt(b, vs, 9, t, 13, 8, false);
    long, vs := ScalarAt(b, vs, 10, t, 21, 8, false);
    f := f0.(bootCount := boot, rssi := rssi, temperature := temp, clockDrift := drift, battery := volts,
        latitude := lat, longitude := long);
  }

  /** The optional value, the array and the list. */
  method ReadMiddle(b: seq<byte>, f0: Telemetry, t0: seq<byte>, ghost vs0: seq<Val>)
    returns (v: Verdict, f: Telemetry, t: seq<byte>, ghost vs: seq<Val>)
    requires |t0| >= 30 && Filled(Formats(), b, vs0, 11, t0[29..]) && Holds(vs0, f0, 11)
    ensures !v.UnknownOrdinal? && (v.Short? ==> DecodeFields(Formats(), b) == Truncated)
    ensures v.Done? ==> Filled(Formats(), b, vs, 14, t) && Holds(vs, f, 14)
  {
    hide Decode, DecodeFields, Filled, Vals, ByteVals, NumFmt, Formats, NumsAt, Mapped;
    f, t, v, vs := f0, t0[30..], Short, vs0;
    assert t0[29..] == [t0[29]] + t;
    FillFails(Formats(), b, vs, 11, [t0[29]] + t);
    var humidity := OptNumAfter(t0[29], t, 4);
    if !humidity.Got? { return; }
    vs := Fill(Formats(), b, vs, 11, [t0[29]] + t, OptVal(humidity.value, NumVal), humidity.rest);
    t := humidity.rest;
    FillFails(Formats(), b, vs, 12, t);
    ShortThree(t);
    if |t| < 6 { return; }
    ThreeDecode(t);
    var accel := NumbersAt(t, 3, 2, true);
    vs := Fill(Formats(), b, vs, 12, t, Many(Vals(accel, NumVal)), t[6..]);
    FillFails(Formats(), b, vs, 13, t[6..]);
    var cells := ReadNumbers(t[6..], 4, false);
    if !cells.Got? { return; }
    vs := Fill(Formats(), b, vs, 13, t[6..], Many(Vals(cells.value, NumVal)), cells.rest);
    f := f.(humidity := humidity.value, accel := accel, visibleCells := cells.value);
    t, v := cells.rest, Done;
  }

  method ReadLast(b: seq<byte>, f0: Telemetry, t0: seq<byte>, ghost vs0: seq<Val>) returns (v: Verdict, f: Telemetry)
    requires Filled(Formats(), b, vs0, 14, t0) && Holds(vs0, f0, 14)
    ensures !v.UnknownOrdinal? && (v.Short? ==> DecodeFields(Formats(), b) == Truncated)
    ensures v.Done? ==> Decode(TELEMETRY, b).Got? && Decode(TELEMETRY, b).value == Fields(DecodedValues(f))
  {
    hide Decode, DecodeFields, Filled, Vals, ByteVals, NumFmt, Formats, DecodedValues, Mapped;
    f, v := f0, Short;
    ghost var vs := vs0;
    FillFails(Formats(), b, vs, 14, t0);
    var counts := ReadCounts(t0);
    if !counts.Got? { return; }
    vs := Fill(Formats(), b, vs, 14, t0, Mapping(Mapped(counts.value, NumVal)), counts.rest);
    var t := counts.rest;
    FillFails(Formats(), b, vs, 15, t);
    ShortFlag(t);
    if |t| < 1 { return; }
    FlagAt(t, 0);
    assert t[0..] == t;
    vs := Fill(Formats(), b, vs, 15, t, Bit(t[0] != 0), t[1..]);
    FillFails(Formats(), b, vs, 16, t[1..]);
    var signature := ReadLenStr(t[1..]);
    if !signature.Got? { return; }
    vs := Fill(Formats(), b, vs, 16, t[1..], Text(signature.value), signature.rest);
    f, v := f.(packetCounts := counts.value, gpsFix := t[0] != 0, signature := signature.value), Done;
    AllHeld(vs, f);
    FillEnd(Formats(), b, vs, signature.rest);
  }

  lemma AllHeld(vs: seq<Val>, f: Telemetry)
    requires Holds(vs, f, 17)
    ensures vs == DecodedValues(f)
  {
  }

  /** Reading the fields, one block after the other. */
  method DecodeTelemetry(b: seq<byte>) returns (v: Verdict, f: Telemetry)
    ensures !v.UnknownOrdinal? && (v.Short? ==> Decode(TELEMETRY, b) == Truncated)
    ensures v.Done? ==> Decode(TELEMETRY, b).Got? && Decode(TELEMETRY, b).value == Fields(DecodedValues(f))
  {
    RecordDecode(Formats(), b);
    hide Decode, DecodeFields, Filled, Formats, Values, Holds, DecodedValues;
    var t;
    ghost var vs;
    v, f, t, vs := ReadHead(b);
    if !v.Done? { return; }
    if |t| < 30 {
      ScalarsShort(b, vs, t);
      v := Short;
      return;
    }
    f, vs := ReadScalars(b, f, t, vs);
    v, f, t, vs := ReadMiddle(b, f, t, vs);
    if !v.Done? { return; }
    v, f := ReadLast(b, f, t, vs);
  }

  // ---- the record ----------------------------------------------------------

  class TelemetryFrame {
    var deviceID: int
    var ipv6: Option<int>
    var localIP: Four
    var firmware: seq<byte>
    var bootCount: int
    var rssi: int
    var temperature: int
    var clockDrift: int
    var battery: int
    var latitude: int
    var longitude: int
    var humidity: Option<int>
    var accel: Three
    var visibleCells: seq<int>
    var packetCounts: map<seq<byte>, int>
    var gpsFix: bool
    var signature: seq<byte>

    constructor () {
      deviceID, ipv6, localIP, firmware, bootCount, rssi := 0, None, [0, 0, 0, 0], [], 0, 0;
      temperature, clockDrift, battery, latitude, longitude, humidity := 0, 0, 0, 0, 0, None;
      accel, visibleCells, packetCounts, gpsFix, signature := [0, 0, 0], [], map[], false, [];
    }

    function View(): Telemetry
      reads this
    {
      Telemetry(deviceID, OrZero(ipv6), localIP, firmware, bootCount, rssi, temperature, clockDrift, battery, latitude,
                longitude, humidity, accel, visibleCells, packetCounts, gpsFix, signature)
    }

    /** The bytes of the record's format, the packet counts in the order the map gave. */
    method MarshalBinary() returns (out: seq<byte>, ghost keys: seq<seq<byte>>)
      ensures Lists(keys, packetCounts) && forall k | k in keys :: k in packetCounts
      ensures Shaped(TELEMETRY, Fields(Values(View(), Listing(View(), keys))))
      ensures out == Encode(TELEMETRY, Fields(Values(View(), Listing(View(), keys))))
    {
      hide Encode, Shaped, Out, Values, Formats, Listed, Lists;
      var f := View();
      var order := MapKeys(packetCounts);
      keys := order;
      FirstOut(f, keys);
      ghost var counts := Listing(f, keys);
      out := AppendHead(f, ipv6, counts, []);
      out := AppendScalars(f, counts, out);
      out := AppendLast(f, order, out);
    }

    method SetFirst(f: Telemetry)
      modifies `deviceID, `ipv6, `localIP, `firmware, `bootCount, `rssi, `temperature, `clockDrift
      ensures deviceID == f.deviceID && ipv6 == Some(f.ipv6) && localIP == f.localIP && firmware == f.firmware
      ensures bootCount == f.bootCount && rssi == f.rssi && temperature == f.temperature && clockDrift == f.clockDrift
    {
      deviceID, ipv6, localIP, firmware := f.deviceID, Some(f.ipv6), f.localIP, f.firmware;
      bootCount, rssi, temperature, clockDrift := f.bootCount, f.rssi, f.temperature, f.clockDrift;
    }

    method SetLast(f: Telemetry)
      modifies `battery, `latitude, `longitude, `humidity, `accel, `visibleCells, `packetCounts, `gpsFix, `signature
      ensures battery == f.battery && latitude == f.latitude && longitude == f.longitude && humidity == f.humidity
      ensures accel == f.accel && visibleCells == f.visibleCells && packetCounts == f.packetCounts
      ensures gpsFix == f.gpsFix && signature == f.signature
    {
      battery, latitude, longitude, humidity := f.battery, f.latitude, f.longitude, f.humidity;
      accel, visibleCells, packetCounts, gpsFix := f.accel, f.visibleCells, f.packetCounts, f.gpsFix;
      signature := f.signature;
    }

    /** Every input: the record is filled and Done, or the input was short, just as the
        format says. */
    method UnmarshalBinary(b: seq<byte>) returns (v: Verdict)
      modifies this
      ensures !v.UnknownOrdinal? && (v.Short? ==> Decode(TELEMETRY, b) == Truncated)
      ensures v.Done? ==> Decode(TELEMETRY, b).Got? && Decode(TELEMETRY, b).value == Fields(DecodedValues(View()))
      ensures v.Done? ==> ipv6.Some?
    {
      hide Decode, DecodedValues, Formats;
      var f;
      v, f := DecodeTelemetry(b);
      if v.Done? {
        SetFirst(f);
        SetLast(f);
        assert View() == f;
      }
    }
  }

  // ---- there and back ------------------------------------------------------

  lemma CountsMeaning(m: map<seq<byte>, int>, keys: seq<seq<byte>>)
    requires Lists(keys, m)
    ensures (forall k | k in keys :: k in m) &&
            Meaning(Entries(keys, Listed(m, keys, NumVal))) == Mapping(Mapped(m, NumVal))
  {
    MapMeaning(m, keys, NumVal);
  }

  lemma FieldMeaning(f: Telemetry, keys: seq<seq<byte>>, i: nat)
    requires i < 17 && Lists(keys, f.packetCounts) && forall k | k in keys :: k in f.packetCounts
    ensures Meaning(TelemetryVal(f, Listing(f, keys), i)) == TelemetryVal(f, Mapping(Mapped(f.packetCounts, NumVal)), i)
  {
    hide Vals, ByteVals, Lists, Listed, Mapped;
    match i
    case 2 => FourMeaning(f.localIP);
    case 12 => NumbersMeaning(f.accel);
    case 13 => NumbersMeaning(f.visibleCells);
    case 14 => CountsMeaning(f.packetCounts, keys);
    case _ =>
  }

  lemma SameField(f: Telemetry, g: Telemetry, i: nat)
    requires i < 17 && DecodedValues(f) == DecodedValues(g)
    ensures TelemetryVal(f, Mapping(Mapped(f.packetCounts, NumVal)), i) ==
            TelemetryVal(g, Mapping(Mapped(g.packetCounts, NumVal)), i)
  {
    assert DecodedValues(f)[i] == DecodedValues(g)[i];
  }

  lemma SameScalars(f: Telemetry, g: Telemetry)
    requires DecodedValues(f) == DecodedValues(g)
    ensures f.deviceID == g.deviceID && f.ipv6 == g.ipv6 && f.firmware == g.firmware && f.bootCount == g.bootCount
    ensures f.rssi == g.rssi && f.temperature == g.temperature && f.clockDrift == g.clockDrift
    ensures f.battery == g.battery && f.latitude == g.latitude && f.longitude == g.longitude
  {
    hide DecodedValues, Mapped;
    SameField(f, g, 0);
    SameField(f, g, 1);
    SameField(f, g, 3);
    SameField(f, g, 4);
    SameField(f, g, 5);
    SameField(f, g, 6);
    SameField(f, g, 7);
    SameField(f, g, 8);
    SameField(f, g, 9);
    SameField(f, g, 10);
  }

  lemma SameCounts(f: Telemetry, g: Telemetry)
    requires DecodedValues(f) == DecodedValues(g)
    ensures f.packetCounts == g.packetCounts
  {
    hide DecodedValues, Mapped;
    SameField(f, g, 14);
    SameMap(f.packetCounts, g.packetCounts, NumVal);
  }

  /** The values a decoder gives determine the frame. */
  lemma SameTelemetry(f: Telemetry, g: Telemetry)
    requires DecodedValues(f) == DecodedValues(g)
    ensures f == g
  {
    hide DecodedValues, Vals, ByteVals, Mapped;
    SameScalars(f, g);
    SameCounts(f, g);
    SameField(f, g, 2);
    SameByteVals(f.localIP, g.localIP);
    SameField(f, g, 11);
    SameField(f, g, 12);
    SameNums(f.accel, g.accel);
    SameField(f, g, 13);
    SameNums(f.visibleCells, g.visibleCells);
    SameField(f, g, 15);
    SameField(f, g, 16);
  }

  /** Numbers in the range of their width, lengths below 2^32, for every order of the map. */
  ghost predicate InLimits(f: Telemetry) {
    forall keys | Lists(keys, f.packetCounts) ::
      && (forall k | k in keys :: k in f.packetCounts)
      && Shaped(TELEMETRY, Fields(Values(f, Listing(f, keys)))) && Fits(TELEMETRY, Fields(Values(f, Listing(f, keys))))
  }

  lemma FrameBack(f: Telemetry, keys: seq<seq<byte>>, n: nat)
    requires InLimits(f) && Lists(keys, f.packetCounts)
    ensures forall k | k in keys :: k in f.packetCounts
    ensures var vs := Values(f, Listing(f, keys));
            && Shaped(TELEMETRY, Fields(vs)) && |Encode(TELEMETRY, Fields(vs))| > 0
            && Decode(TELEMETRY, Encode(TELEMETRY, Fields(vs))) == Got(Fields(DecodedValues(f)), [])
            && (n < |Encode(TELEMETRY, Fields(vs))| ==>
              Decode(TELEMETRY, Encode(TELEMETRY, Fields(vs))[..n]) == Truncated)
  {
    assert forall k | k in keys :: k in f.packetCounts;
    var vs := Values(f, Listing(f, keys));
    assert Shaped(TELEMETRY, Fields(vs)) && Fits(TELEMETRY, Fields(vs));
    hide Encode, Decode, Shaped, Fits, InLimits, Lists, Listing, TelemetryVal;
    forall i: nat | i < 17 ensures Meaning(vs[i]) == DecodedValues(f)[i] { FieldMeaning(f, keys, i); }
    RecordNotEmpty(Formats(), vs);
    RecordBack(Formats(), vs, DecodedValues(f), n);
  }

  /** Writing a frame and reading it back gives the same frame whatever the order of the
      map, a nil address as zero; and every strict prefix of the bytes is short. */
  method WriteAndRead(rec: TelemetryFrame, cut: nat) returns (back: TelemetryFrame, v: Verdict, w: Verdict)
    requires InLimits(rec.View())
    ensures v == Done && fresh(back) && back.View() == rec.View() && back.ipv6.Some?
    ensures w == Short
  {
    ghost var f := rec.View();
    var out;
    ghost var keys;
    out, keys := rec.MarshalBinary();
    hide Encode, Decode, Shaped, Values, Formats, InLimits, Lists, Listing, DecodedValues;
    FrameBack(f, keys, 0);
    var n := cut % |out|;
    FrameBack(f, keys, n);
    back := new TelemetryFrame();
    v := back.UnmarshalBinary(out);
    SameTelemetry(back.View(), f);
    var scratch := new TelemetryFrame();
    w := scratch.UnmarshalBinary(out[..n]);
  }
}
