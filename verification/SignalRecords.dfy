/** The Go signal capture (examples/appdata/go/signals.go): every scalar as a list
    element, two fixed arrays, an optional value and an enum. */
module SignalRecords {
  import opened Common
  import opened LittleEndian
  import opened Layout
  import opened Records
  import opened Blocks
  import Int128

  /** What a capture says: a nil counter or balance is zero, the mode its ordinal,
      floats their bits. */
  datatype Signals = Signals(
    captureID: int, flags: seq<bool>, rawFrame: seq<byte>, portNumbers: seq<int>, sampleCounts: seq<int>,
    byteTotals: seq<int>, trimOffsets: seq<int>, driftDeltas: seq<int>, temperaturesC: seq<int>,
    timestampsNs: seq<int>, counters: seq<int>, balances: seq<int>, gains: seq<int>, voltages: seq<int>,
    channelNames: seq<seq<byte>>, payloads: seq<seq<byte>>, checksum: Four, window: Three,
    droppedFrames: Option<int>, mode: nat)

  function SignalFmt(i: nat): Fmt
    requires i < 20
  {
    match i
    case 0 => UInt(8)
    case 1 => List(Flag)
    case 2 => List(UInt(1))
    case 3 => List(NumFmt(2, false))
    case 4 => List(NumFmt(4, false))
    case 5 => List(NumFmt(8, false))
    case 6 => List(NumFmt(1, true))
    case 7 => List(NumFmt(2, true))
    case 8 => List(NumFmt(4, true))
    case 9 => List(NumFmt(8, true))
    case 10 => List(NumFmt(16, false))
    case 11 => List(NumFmt(16, true))
    case 12 => List(NumFmt(4, false))
    case 13 => List(NumFmt(8, false))
    case 14 => List(Blob)
    case 15 => List(Blob)
    case 16 => Fixed(UInt(1), 4)
    case 17 => Fixed(NumFmt(2, true), 3)
    case 18 => Optional(UInt(4))
    case _ => Enum(4)
  }

  function SignalVal(s: Signals, i: nat): Val
    requires i < 20
  {
    match i
    case 0 => Num(s.captureID)
    case 1 => Many(Vals(s.flags, BitVal))
    case 2 => Many(ByteVals(s.rawFrame))
    case 3 => Many(Vals(s.portNumbers, NumVal))
    case 4 => Many(Vals(s.sampleCounts, NumVal))
    case 5 => Many(Vals(s.byteTotals, NumVal))
    case 6 => Many(Vals(s.trimOffsets, NumVal))
    case 7 => Many(Vals(s.driftDeltas, NumVal))
    case 8 => Many(Vals(s.temperaturesC, NumVal))
    case 9 => Many(Vals(s.timestampsNs, NumVal))
    case 10 => Many(Vals(s.counters, NumVal))
    case 11 => Many(Vals(s.balances, NumVal))
    case 12 => Many(Vals(s.gains, NumVal))
    case 13 => Many(Vals(s.voltages, NumVal))
    case 14 => Many(Vals(s.channelNames, TextVal))
    case 15 => Many(Vals(s.payloads, TextVal))
    case 16 => Many(ByteVals(s.checksum))
    case 17 => Many(Vals(s.window, NumVal))
    case 18 => OptVal(s.droppedFrames, NumVal)
    case _ => Tagged(s.mode, Nothing)
  }

  function Formats(): (fs: seq<Fmt>)
    ensures |fs| == 20 && forall i | 0 <= i < 20 :: fs[i] == SignalFmt(i)
  {
    seq(20, i requires 0 <= i < 20 => SignalFmt(i))
  }

  function Values(s: Signals): (vs: seq<Val>)
    ensures |vs| == 20 && forall i | 0 <= i < 20 :: vs[i] == SignalVal(s, i)
  {
    seq(20, i requires 0 <= i < 20 => SignalVal(s, i))
  }

  /** A capture on the wire. */
  const SIGNALS := Record(Formats())

  // ---- writing -------------------------------------------------------------

  lemma FieldShaped(s: Signals, i: nat)
    requires i < 20 && s.mode < 4
    ensures Shaped(SignalFmt(i), SignalVal(s, i))
  {
    hide Vals, ByteVals, NumFmt;
    match i
    case 0 =>
    case 1 =>
      ValsShaped(Flag, s.flags, BitVal);
      ManyShaped(Flag, Vals(s.flags, BitVal));
    case 2 => BytesShaped(s.rawFrame);
    case 3 => NumbersShaped(2, false, s.portNumbers);
    case 4 => NumbersShaped(4, false, s.sampleCounts);
    case 5 => NumbersShaped(8, false, s.byteTotals);
    case 6 => NumbersShaped(1, true, s.trimOffsets);
    case 7 => NumbersShaped(2, true, s.driftDeltas);
    case 8 => NumbersShaped(4, true, s.temperaturesC);
    case 9 => NumbersShaped(8, true, s.timestampsNs);
    case 10 => NumbersShaped(16, false, s.counters);
    case 11 => NumbersShaped(16, true, s.balances);
    case 12 => NumbersShaped(4, false, s.gains);
    case 13 => NumbersShaped(8, false, s.voltages);
    case 14 => TextsShaped(s.channelNames);
    case 15 => TextsShaped(s.payloads);
    case 16 => BytesShaped(s.checksum);
    case 17 => NumbersShaped(2, true, s.window);
    case 18 => OptShaped(UInt(4), s.droppedFrames, NumVal);
    case _ =>
  }

  lemma RecordShaped(s: Signals)
    requires s.mode < 4
    ensures forall j | 0 <= j < 20 :: Shaped(Formats()[j], Values(s)[j])
    ensures Shaped(SIGNALS, Fields(Values(s)))
  {
    hide Shaped, SignalFmt, SignalVal, Formats, Values;
    forall j | 0 <= j < 20 ensures Shaped(Formats()[j], Values(s)[j]) { FieldShaped(s, j); }
    AllShaped(Formats(), Values(s));
  }

  /** The first `i` fields are out. */
  ghost predicate Out(s: Signals, i: nat, buf: seq<byte>) { WroteFields(Formats(), Values(s), i, buf) }

  lemma FirstOut(s: Signals)
    requires s.mode < 4
    ensures Out(s, 0, [])
  {
    hide Shaped, WroteFields;
    RecordShaped(s);
    StartWriting(Formats(), Values(s));
  }

  lemma NextOut(s: Signals, i: nat, buf: seq<byte>)
    requires i < 20 && Out(s, i, buf)
    ensures Shaped(SignalFmt(i), SignalVal(s, i)) && Out(s, i + 1, buf + Encode(SignalFmt(i), SignalVal(s, i)))
  {
    hide Encode, Shaped, WroteFields, SignalFmt, SignalVal;
    Next(Formats(), Values(s), i, buf);
  }

  lemma AllOut(s: Signals, buf: seq<byte>)
    requires Out(s, 20, buf)
    ensures Shaped(SIGNALS, Fields(Values(s))) && buf == Encode(SIGNALS, Fields(Values(s)))
  {
    hide Encode, Shaped, WroteFields, Formats, Values;
    Written(Formats(), Values(s), buf);
  }

  /** The first ten fields. */
  method AppendFirst(s: Signals) returns (buf: seq<byte>)
    requires s.mode < 4
    ensures Out(s, 10, buf)
  {
    hide Encode, EncodeAll, Out, Shaped, Vals, ByteVals, NumFmt;
    buf := [];
    FirstOut(s);
    NextOut(s, 0, buf);
    buf := AppendUInt(buf, s.captureID, 8);
    NextOut(s, 1, buf);
    buf := AppendFlags(buf, s.flags);
    NextOut(s, 2, buf);
    buf := AppendBytes(buf, s.rawFrame);
    NextOut(s, 3, buf);
    buf := AppendNumbers(buf, s.portNumbers, 2, false);
    NextOut(s, 4, buf);
    buf := AppendNumbers(buf, s.sampleCounts, 4, false);
    NextOut(s, 5, buf);
    buf := AppendNumbers(buf, s.byteTotals, 8, false);
    NextOut(s, 6, buf);
    buf := AppendNumbers(buf, s.trimOffsets, 1, true);
    NextOut(s, 7, buf);
    buf := AppendNumbers(buf, s.driftDeltas, 2, true);
    NextOut(s, 8, buf);
    buf := AppendNumbers(buf, s.temperaturesC, 4, true);
    NextOut(s, 9, buf);
    buf := AppendNumbers(buf, s.timestampsNs, 8, true);
  }

  /** The middle ones; nil integers are written as zeros. */
  method AppendMiddle(s: Signals, counters: seq<Option<int>>, balances: seq<Option<int>>, buf0: seq<byte>)
    returns (buf: seq<byte>)
    requires s.counters == OrZeros(counters) && s.balances == OrZeros(balances)
    requires Out(s, 10, buf0)
    ensures Out(s, 16, buf)
  {
    hide Encode, EncodeAll, Out, Shaped, Vals, ByteVals, NumFmt;
    buf := buf0;
    NextOut(s, 10, buf);
    buf := AppendInt128s(buf, counters, false);
    NextOut(s, 11, buf);
    buf := AppendInt128s(buf, balances, true);
    NextOut(s, 12, buf);
    buf := AppendNumbers(buf, s.gains, 4, false);
    NextOut(s, 13, buf);
    buf := AppendNumbers(buf, s.voltages, 8, false);
    NextOut(s, 14, buf);
    buf := AppendTexts(buf, s.channelNames);
    NextOut(s, 15, buf);
    buf := AppendTexts(buf, s.payloads);
  }

  /** The arrays, the optional value and the ordinal. */
  method AppendLast(s: Signals, buf0: seq<byte>) returns (buf: seq<byte>)
    requires s.mode < 4
    requires Out(s, 16, buf0)
    ensures Shaped(SIGNALS, Fields(Values(s))) && buf == Encode(SIGNALS, Fields(Values(s)))
  {
    hide Encode, EncodeAll, Out, Shaped, Vals, ByteVals, NumFmt;
    buf := buf0;
    NextOut(s, 16, buf);
    FourBytes(s.checksum);
    buf := buf + s.checksum;
    NextOut(s, 17, buf);
    ThreeBytes(s.window);
    buf := AppendEach(buf, s.window, 2, true);
    NextOut(s, 18, buf);
    buf := AppendOptNum(buf, s.droppedFrames, 4);
    NextOut(s, 19, buf);
    OrdinalEncode(4, s.mode);
    buf := buf + [s.mode];
    AllOut(s, buf);
  }

  // ---- reading -------------------------------------------------------------

  /** The values of fields `from` to `to` are those of the capture. */
  ghost predicate Holds(vs: seq<Val>, s: Signals, from: nat, to: nat) {
    |vs| == 20 && to <= 20 && forall i | from <= i < to :: vs[i] == SignalVal(s, i)
  }

  /** One counted list of numbers, as field `i`. */
  method ReadListAt(ghost b: seq<byte>, ghost vs: seq<Val>, ghost i: nat, t: seq<byte>, k: nat, signed: bool)
    returns (r: Read<seq<int>>, ghost ws: seq<Val>)
    requires |vs| == 20 && i < 20 && Filled(Formats(), b, vs, i, t) && SignalFmt(i) == List(NumFmt(k, signed))
    ensures !r.BadOrdinal? && (r.Truncated? ==> DecodeFields(Formats(), b) == Truncated)
    ensures r.Got? ==> ws == vs[i := Many(Vals(r.value, NumVal))] && Filled(Formats(), b, ws, i + 1, r.rest)
  {
    hide Decode, DecodeFields, Filled, SignalFmt, Vals, NumFmt, Formats;
    FillFails(Formats(), b, vs, i, t);
    r := ReadNumbers(t, k, signed);
    ws := vs;
    if r.Got? { ws := Fill(Formats(), b, vs, i, t, Many(Vals(r.value, NumVal)), r.rest); }
  }

  const BLANK := Signals(0, [], [], [], [], [], [], [], [], [], [], [], [], [], [], [], [0, 0, 0, 0],
    [0, 0, 0], None, 0)

  /** The identity, the flags and the raw frame. */
  method ReadHead(b: seq<byte>) returns (v: Verdict, s: Signals, t: seq<byte>, ghost vs: seq<Val>)
    ensures !v.UnknownOrdinal? && (v.Short? ==> DecodeFields(Formats(), b) == Truncated)
    ensures v.Done? ==> Filled(Formats(), b, vs, 3, t) && Holds(vs, s, 0, 3)
  {
    hide Decode, DecodeFields, Filled, Vals, ByteVals, NumFmt, Formats, Values;
    s, t, v, vs := BLANK, b, Short, Values(BLANK);
    FillStart(Formats(), b, vs);
    FillFails(Formats(), b, vs, 0, t);
    var id := ReadUInt(t, 8);
    if !id.Got? { return; }
    vs := Fill(Formats(), b, vs, 0, t, Num(id.value), id.rest);
    FillFails(Formats(), b, vs, 1, id.rest);
    var flags := ReadFlags(id.rest);
    if !flags.Got? { return; }
    vs := Fill(Formats(), b, vs, 1, id.rest, Many(Vals(flags.value, BitVal)), flags.rest);
    FillFails(Formats(), b, vs, 2, flags.rest);
    var raw := ReadBytes(flags.rest);
    if !raw.Got? { return; }
    vs := Fill(Formats(), b, vs, 2, flags.rest, Many(ByteVals(raw.value)), raw.rest);
    s := s.(captureID := id.value, flags := flags.value, rawFrame := raw.value);
    t, v := raw.rest, Done;
  }

  /** The lists of integers; each is checked as a whole. */
  method ReadUnsigned(ghost b: seq<byte>, s0: Signals, t0: seq<byte>, ghost vs0: seq<Val>)
    returns (v: Verdict, s: Signals, t: seq<byte>, ghost vs: seq<Val>)
    requires Filled(Formats(), b, vs0, 3, t0) && Holds(vs0, s0, 0, 3)
    ensures !v.UnknownOrdinal? && (v.Short? ==> DecodeFields(Formats(), b) == Truncated)
    ensures v.Done? ==> Filled(Formats(), b, vs, 6, t) && Holds(vs, s, 0, 6)
  {
    hide Decode, DecodeFields, Filled, Vals, ByteVals, NumFmt, Formats;
    s, t, v, vs := s0, t0, Short, vs0;
    var ports, samples, totals;
    ports, vs := ReadListAt(b, vs, 3, t, 2, false);
    if !ports.Got? { return; }
    samples, vs := ReadListAt(b, vs, 4, ports.rest, 4, false);
    if !samples.Got? { return; }
    totals, vs := ReadListAt(b, vs, 5, samples.rest, 8, false);
    if !totals.Got? { return; }
    s := s.(portNumbers := ports.value, sampleCounts := samples.value, byteTotals := totals.value);
    t, v := totals.rest, Done;
  }

  method ReadSigned(ghost b: seq<byte>, s0: Signals, t0: seq<byte>, ghost vs0: seq<Val>)
    returns (v: Verdict, s: Signals, t: seq<byte>, ghost vs: seq<Val>)
    requires Filled(Formats(), b, vs0, 6, t0) && Holds(vs0, s0, 0, 6)
    ensures !v.UnknownOrdinal? && (v.Short? ==> DecodeFields(Formats(), b) == Truncated)
    ensures v.Done? ==> Filled(Formats(), b, vs, 10, t) && Holds(vs, s, 0, 10)
  {
    hide Decode, DecodeFields, Filled, Vals, ByteVals, NumFmt, Formats;
    s, t, v, vs := s0, t0, Short, vs0;
    var trims, drifts, temps, stamps;
    trims, vs := ReadListAt(b, vs, 6, t, 1, true);
    if !trims.Got? { return; }
    drifts, vs := ReadListAt(b, vs, 7, trims.rest, 2, true);
    if !drifts.Got? { return; }
    temps, vs := ReadListAt(b, vs, 8, drifts.rest, 4, true);
    if !temps.Got? { return; }
    stamps, vs := ReadListAt(b, vs, 9, temps.rest, 8, true);
    if !stamps.Got? { return; }
    s := s.(trimOffsets := trims.value, driftDeltas := drifts.value, temperaturesC := temps.value,
        timestampsNs := stamps.value);
    t, v := stamps.rest, Done;
  }

  /** The integers of 128 bits; the counters have their sign taken away. */
  method ReadBig(ghost b: seq<byte>, s0: Signals, t0: seq<byte>, ghost vs0: seq<Val>)
    returns (v: Verdict, s: Signals, t: seq<byte>, ghost vs: seq<Val>)
    requires Filled(Formats(), b, vs0, 10, t0) && Holds(vs0, s0, 0, 10)
    ensures !v.UnknownOrdinal? && (v.Short? ==> DecodeFields(Formats(), b) == Truncated)
    ensures v.Done? ==> Filled(Formats(), b, vs, 12, t) && Holds(vs, s, 0, 12)
  {
    hide Decode, DecodeFields, Filled, Vals, ByteVals, NumFmt, Formats, Remapped;
    s, t, v, vs := s0, t0, Short, vs0;
    FillFails(Formats(), b, vs, 10, t);
    var r := ReadInt128s(t, false);
    if !r.Got? { return; }
    var counters := NormalizeCounters(r.value);
    vs := Fill(Formats(), b, vs, 10, t, Many(Vals(counters, NumVal)), r.rest);
    FillFails(Formats(), b, vs, 11, r.rest);
    var q := ReadInt128s(r.rest, true);
    if !q.Got? { return; }
    vs := Fill(Formats(), b, vs, 11, r.rest, Many(Vals(q.value, NumVal)), q.rest);
    s := s.(counters := counters, balances := q.value);
    t, v := q.rest, Done;
  }

  /** The lists of floats and of text. */
  method ReadRest(ghost b: seq<byte>, s0: Signals, t0: seq<byte>, ghost vs0: seq<Val>)
    returns (v: Verdict, s: Signals, t: seq<byte>, ghost vs: seq<Val>)
    requires Filled(Formats(), b, vs0, 12, t0) && Holds(vs0, s0, 0, 12)
    ensures !v.UnknownOrdinal? && (v.Short? ==> DecodeFields(Formats(), b) == Truncated)
    ensures v.Done? ==> Filled(Formats(), b, vs, 16, t) && Holds(vs, s, 0, 16)
  {
    hide Decode, DecodeFields, Filled, Vals, ByteVals, NumFmt, Formats;
    s, t, v, vs := s0, t0, Short, vs0;
    var gains, volts;
    gains, vs := ReadListAt(b, vs, 12, t, 4, false);
    if !gains.Got? { return; }
    volts, vs := ReadListAt(b, vs, 13, gains.rest, 8, false);
    if !volts.Got? { return; }
    FillFails(Formats(), b, vs, 14, volts.rest);
    var names := ReadTexts(volts.rest);
    if !names.Got? { return; }
    vs := Fill(Formats(), b, vs, 14, volts.rest, Many(Vals(names.value, TextVal)), names.rest);
    FillFails(Formats(), b, vs, 15, names.rest);
    var payloads := ReadTexts(names.rest);
    if !payloads.Got? { return; }
    vs := Fill(Formats(), b, vs, 15, names.rest, Many(Vals(payloads.value, TextVal)), payloads.rest);
    s := s.(gains := gains.value, voltages := volts.value, channelNames := names.value, payloads := payloads.value);
    t, v := payloads.rest, Done;
  }

  /** The two arrays behind their joint check. */
  lemma ArraysShort(b: seq<byte>, vs: seq<Val>, t: seq<byte>)
    requires Filled(Formats(), b, vs, 16, t) && |t| < 10
    ensures DecodeFields(Formats(), b) == Truncated
  {
    hide Filled, Formats, DecodeFields, RunWidth;
    var fs := Formats();
    RunNone(fs, 18);
    RunStep(fs, 17, 18);
    RunStep(fs, 16, 18);
    FillShort(fs, b, vs, 16, t, 2);
  }

  method ReadArrays(ghost b: seq<byte>, s0: Signals, t0: seq<byte>, ghost vs0: seq<Val>)
    returns (v: Verdict, s: Signals, t: seq<byte>, ghost vs: seq<Val>)
    requires Filled(Formats(), b, vs0, 16, t0) && Holds(vs0, s0, 0, 16)
    ensures !v.UnknownOrdinal? && (v.Short? ==> DecodeFields(Formats(), b) == Truncated)
    ensures v.Done? ==> Filled(Formats(), b, vs, 18, t) && Holds(vs, s, 0, 18)
  {
    hide Decode, DecodeFields, Filled, Vals, ByteVals, NumFmt, Formats, NumsAt;
    s, t, v, vs := s0, t0, Short, vs0;
    if |t| < 10 {
      ArraysShort(b, vs, t);
      return;
    }
    FourDecode(t);
    vs := Fill(Formats(), b, vs, 16, t, Many(ByteVals(t[..4])), t[4..]);
    ThreeDecode(t[4..]);
    var window := NumbersAt(t[4..], 3, 2, true);
    vs := Fill(Formats(), b, vs, 17, t[4..], Many(Vals(window, NumVal)), t[4..][6..]);
    s := s.(checksum := t[..4], window := window);
    assert t[4..][6..] == t[10..];
    t, v := t[10..], Done;
  }

  method ReadLast(b: seq<byte>, s0: Signals, t0: seq<byte>, ghost vs0: seq<Val>) returns (v: Verdict, s: Signals)
    requires Filled(Formats(), b, vs0, 18, t0) && Holds(vs0, s0, 0, 18)
    ensures v.Short? ==> DecodeFields(Formats(), b) == Truncated
    ensures v.UnknownOrdinal? ==> DecodeFields(Formats(), b) == BadOrdinal
    ensures v.Done? ==> s.mode < 4 && Decode(SIGNALS, b).Got? && Decode(SIGNALS, b).value == Fields(Values(s))
  {
    hide Decode, DecodeFields, Filled, Vals, ByteVals, NumFmt, Formats, Values;
    s, v := s0, Short;
    ghost var vs := vs0;
    FillFails(Formats(), b, vs, 18, t0);
    var dropped := ReadOptNum(t0, 4);
    if !dropped.Got? { return; }
    vs := Fill(Formats(), b, vs, 18, t0, OptVal(dropped.value, NumVal), dropped.rest);
    var t := dropped.rest;
    FillFails(Formats(), b, vs, 19, t);
    OrdinalDecode(4, t);
    if |t| < 1 { return; }
    if t[0] >= 4 { return UnknownOrdinal, s; }
    vs := Fill(Formats(), b, vs, 19, t, Tagged(t[0], Nothing), t[1..]);
    s, v := s.(droppedFrames := dropped.value, mode := t[0]), Done;
    assert vs == Values(s);
    FillEnd(Formats(), b, vs, t[1..]);
  }

  /** Reading the fields, one block after the other. */
  method DecodeSignals(b: seq<byte>) returns (v: Verdict, s: Signals)
    ensures v.Short? ==> Decode(SIGNALS, b) == Truncated
    ensures v.UnknownOrdinal? ==> Decode(SIGNALS, b) == BadOrdinal
    ensures v.Done? ==> s.mode < 4 && Decode(SIGNALS, b).Got? && Decode(SIGNALS, b).value == Fields(Values(s))
  {
    RecordDecode(Formats(), b);
    hide Decode, DecodeFields, Filled, Formats, Values, Holds;
    var t;
    ghost var vs;
    v, s, t, vs := ReadHead(b);
    if !v.Done? { return; }
    v, s, t, vs := ReadUnsigned(b, s, t, vs);
    if !v.Done? { return; }
    v, s, t, vs := ReadSigned(b, s, t, vs);
    if !v.Done? { return; }
    v, s, t, vs := ReadBig(b, s, t, vs);
    if !v.Done? { return; }
    v, s, t, vs := ReadRest(b, s, t, vs);
    if !v.Done? { return; }
    v, s, t, vs := ReadArrays(b, s, t, vs);
    if !v.Done? { return; }
    v, s := ReadLast(b, s, t, vs);
  }

  // ---- the record ----------------------------------------------------------

  /** signalModes: an enum travels as its position in this list. */
  const MODES: seq<string> := ["idle", "active", "fault", "calibrating"]

  lemma ModesDiffer(i: nat)
    requires i < 4
    ensures IndexOf(MODES, MODES[i]) == i
  {
    assert MODES[IndexOf(MODES, MODES[i])] == MODES[i];
    assert |MODES[0]| == 4 && |MODES[1]| == 6 && |MODES[2]| == 5 && |MODES[3]| == 11;
  }

  class SignalCapture {
    var captureID: int
    var flags: seq<bool>
    var rawFrame: seq<byte>
    var portNumbers: seq<int>
    var sampleCounts: seq<int>
    var byteTotals: seq<int>
    var trimOffsets: seq<int>
    var driftDeltas: seq<int>
    var temperaturesC: seq<int>
    var timestampsNs: seq<int>
    var counters: seq<Option<int>>
    var balances: seq<Option<int>>
    var gains: seq<int>
    var voltages: seq<int>
    var channelNames: seq<seq<byte>>
    var payloads: seq<seq<byte>>
    var checksum: Four
    var window: Three
    var droppedFrames: Option<int>
    var mode: string

    constructor ()
      ensures mode == ""
    {
      captureID, flags, rawFrame, portNumbers, sampleCounts := 0, [], [], [], [];
      byteTotals, trimOffsets, driftDeltas, temperaturesC, timestampsNs := [], [], [], [], [];
      counters, balances, gains, voltages, channelNames, payloads := [], [], [], [], [], [];
      checksum, window, droppedFrames, mode := [0, 0, 0, 0], [0, 0, 0], None, "";
    }

    predicate Known()
      reads this
    {
      IndexOf(MODES, mode) >= 0
    }

    function View(): Signals
      requires Known()
      reads this
    {
      Signals(captureID, flags, rawFrame, portNumbers, sampleCounts, byteTotals, trimOffsets, driftDeltas,
              temperaturesC, timestampsNs, OrZeros(counters), OrZeros(balances), gains, voltages, channelNames,
              payloads, checksum, window, droppedFrames, IndexOf(MODES, mode))
    }

    /** The bytes of the record's format; an error exactly on an unknown mode. */
    method MarshalBinary() returns (out: Option<seq<byte>>)
      ensures out.Some? <==> Known()
      ensures out.Some? ==>
              Shaped(SIGNALS, Fields(Values(View()))) && out.value == Encode(SIGNALS, Fields(Values(View())))
    {
      hide Encode, Shaped, Out, Values, Formats, IndexOf;
      if !Known() { return None; }
      var s := View();
      var buf := AppendFirst(s);
      buf := AppendMiddle(s, counters, balances, buf);
      buf := AppendLast(s, buf);
      out := Some(buf);
    }

    method SetFirst(s: Signals)
      modifies `captureID, `flags, `rawFrame, `portNumbers, `sampleCounts, `byteTotals, `trimOffsets, `driftDeltas,
               `temperaturesC, `timestampsNs
      ensures captureID == s.captureID && flags == s.flags && rawFrame == s.rawFrame && portNumbers == s.portNumbers
      ensures sampleCounts == s.sampleCounts && byteTotals == s.byteTotals && trimOffsets == s.trimOffsets
      ensures driftDeltas == s.driftDeltas && temperaturesC == s.temperaturesC && timestampsNs == s.timestampsNs
    {
      captureID, flags, rawFrame, portNumbers := s.captureID, s.flags, s.rawFrame, s.portNumbers;
      sampleCounts, byteTotals := s.sampleCounts, s.byteTotals;
      trimOffsets, driftDeltas := s.trimOffsets, s.driftDeltas;
      temperaturesC, timestampsNs := s.temperaturesC, s.timestampsNs;
    }

    method SetLast(s: Signals)
      requires s.mode < 4
      modifies `counters, `balances, `gains, `voltages, `channelNames, `payloads, `checksum, `window,
          `droppedFrames, `mode
      ensures counters == Somes(s.counters) && balances == Somes(s.balances) && gains == s.gains
      ensures voltages == s.voltages && channelNames == s.channelNames && payloads == s.payloads
      ensures checksum == s.checksum && window == s.window && droppedFrames == s.droppedFrames && mode == MODES[s.mode]
    {
      hide Somes;
      counters, balances, gains, voltages := Somes(s.counters), Somes(s.balances), s.gains, s.voltages;
      channelNames, payloads, checksum, window := s.channelNames, s.payloads, s.checksum, s.window;
      droppedFrames, mode := s.droppedFrames, MODES[s.mode];
    }

    method Set(s: Signals)
      requires s.mode < 4
      modifies this
      ensures Known() && View() == s && None !in counters && None !in balances
    {
      hide IndexOf, Somes, OrZeros;
      SetFirst(s);
      SetLast(s);
      ModesDiffer(s.mode);
      SomesBack(s.counters);
      SomesBack(s.balances);
      hide MODES;
    }

    /** Every input: the record is filled and Done, or the input was short, or the
        ordinal was unknown, just as the format says. */
    method UnmarshalBinary(b: seq<byte>) returns (v: Verdict)
      modifies this
      ensures v.Short? ==> Decode(SIGNALS, b) == Truncated
      ensures v.UnknownOrdinal? ==> Decode(SIGNALS, b) == BadOrdinal
      ensures v.Done? ==> Known() && Decode(SIGNALS, b).Got? && Decode(SIGNALS, b).value == Fields(Values(View()))
      ensures v.Done? ==> None !in counters && None !in balances
    {
      hide Decode, Values, Formats, IndexOf, View;
      var s;
      v, s := DecodeSignals(b);
      if v.Done? { Set(s); }
    }
  }

  // ---- there and back ------------------------------------------------------

  lemma FieldMeaning(s: Signals, i: nat)
    requires i < 20
    ensures Meaning(SignalVal(s, i)) == SignalVal(s, i)
  {
    match i
    case 0 =>
    case 1 => ManyMeaning(Vals(s.flags, BitVal));
    case 2 => ManyMeaning(ByteVals(s.rawFrame));
    case 3 => NumbersMeaning(s.portNumbers);
    case 4 => NumbersMeaning(s.sampleCounts);
    case 5 => NumbersMeaning(s.byteTotals);
    case 6 => NumbersMeaning(s.trimOffsets);
    case 7 => NumbersMeaning(s.driftDeltas);
    case 8 => NumbersMeaning(s.temperaturesC);
    case 9 => NumbersMeaning(s.timestampsNs);
    case 10 => NumbersMeaning(s.counters);
    case 11 => NumbersMeaning(s.balances);
    case 12 => NumbersMeaning(s.gains);
    case 13 => NumbersMeaning(s.voltages);
    case 14 => TextsMeaning(s.channelNames);
    case 15 => TextsMeaning(s.payloads);
    case 16 => FourMeaning(s.checksum);
    case 17 => NumbersMeaning(s.window);
    case 18 =>
    case _ =>
  }

  lemma SameField(s: Signals, t: Signals, i: nat)
    requires i < 20 && Values(s) == Values(t)
    ensures SignalVal(s, i) == SignalVal(t, i)
  {
    assert Values(s)[i] == Values(t)[i];
  }

  lemma SameFirst(s: Signals, t: Signals)
    requires Values(s) == Values(t)
    ensures s.captureID == t.captureID && s.flags == t.flags && s.rawFrame == t.rawFrame
    ensures s.portNumbers == t.portNumbers && s.sampleCounts == t.sampleCounts && s.byteTotals == t.byteTotals
    ensures s.trimOffsets == t.trimOffsets && s.driftDeltas == t.driftDeltas
    ensures s.temperaturesC == t.temperaturesC && s.timestampsNs == t.timestampsNs
  {
    hide Values, Vals, ByteVals;
    SameField(s, t, 0);
    SameField(s, t, 1); SameBits(s.flags, t.flags);
    SameField(s, t, 2); SameByteVals(s.rawFrame, t.rawFrame);
    SameField(s, t, 3); SameNums(s.portNumbers, t.portNumbers);
    SameField(s, t, 4); SameNums(s.sampleCounts, t.sampleCounts);
    SameField(s, t, 5); SameNums(s.byteTotals, t.byteTotals);
    SameField(s, t, 6); SameNums(s.trimOffsets, t.trimOffsets);
    SameField(s, t, 7); SameNums(s.driftDeltas, t.driftDeltas);
    SameField(s, t, 8); SameNums(s.temperaturesC, t.temperaturesC);
    SameField(s, t, 9); SameNums(s.timestampsNs, t.timestampsNs);
  }

  /** The values determine the capture. */
  lemma SameSignals(s: Signals, t: Signals)
    requires Values(s) == Values(t)
    ensures s == t
  {
    hide Values, Vals, ByteVals;
    SameFirst(s, t);
    SameField(s, t, 10); SameNums(s.counters, t.counters);
    SameField(s, t, 11); SameNums(s.balances, t.balances);
    SameField(s, t, 12); SameNums(s.gains, t.gains);
    SameField(s, t, 13); SameNums(s.voltages, t.voltages);
    SameField(s, t, 14); SameTexts(s.channelNames, t.channelNames);
    SameField(s, t, 15); SameTexts(s.payloads, t.payloads);
    SameField(s, t, 16); SameByteVals(s.checksum, t.checksum);
    SameField(s, t, 17); SameNums(s.window, t.window);
    SameField(s, t, 18);
    SameField(s, t, 19);
  }

  /** Numbers in the range of their width, lengths below 2^32. */
  predicate InLimits(s: Signals) {
    Shaped(SIGNALS, Fields(Values(s))) && Fits(SIGNALS, Fields(Values(s)))
  }

  /** Writing a capture and reading it back gives the same capture, nil counters and
      balances as zeros; and every strict prefix of the bytes is short. */
  method WriteAndRead(rec: SignalCapture, cut: nat) returns (back: SignalCapture, v: Verdict, w: Verdict)
    requires rec.Known() && InLimits(rec.View())
    ensures v == Done && fresh(back) && back.Known() && back.View() == rec.View()
    ensures None !in back.counters && None !in back.balances
    ensures w == Short
  {
    ghost var s := rec.View();
    var bytes := rec.MarshalBinary();
    var out := bytes.value;
    hide Encode, Decode, Shaped, Fits, Values, Formats, IndexOf;
    forall i | 0 <= i < 20 ensures Meaning(Values(s)[i]) == Values(s)[i] { FieldMeaning(s, i); }
    RecordNotEmpty(Formats(), Values(s));
    var n := cut % |out|;
    RecordBack(Formats(), Values(s), Values(s), n);
    back := new SignalCapture();
    v := back.UnmarshalBinary(out);
    SameSignals(back.View(), s);
    var scratch := new SignalCapture();
    w := scratch.UnmarshalBinary(out[..n]);
  }
}
