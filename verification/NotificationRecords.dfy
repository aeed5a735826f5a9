/** The Go notification (examples/appdata/go/notification.go): a sum of four channels
    between a number and a flag. */
module NotificationRecords {
  import opened Common
  import opened LittleEndian
  import opened Layout
  import opened Records
  import opened Blocks

  datatype Channel = Silent | SMS(number: seq<byte>) | Push(token: int) | Invoice(money: Money)

  datatype Notification = Notification(id: int, channel: Channel, urgent: bool)

  const CHANNELS: seq<Fmt> := [Record([]), Blob, UInt(8), MONEY]
  const FORMATS: seq<Fmt> := [UInt(4), Sum(CHANNELS), Flag]
  const NOTIFICATION := Record(FORMATS)

  function ChannelVal(c: Channel): Val {
    match c
    case Silent => Tagged(0, Fields([]))
    case SMS(s) => Tagged(1, Text(s))
    case Push(n) => Tagged(2, Num(n))
    case Invoice(m) => Tagged(3, MoneyVal(m))
  }

  function Values(n: Notification): seq<Val> { [Num(n.id), ChannelVal(n.channel), Bit(n.urgent)] }

  // ---- writing -------------------------------------------------------------

  lemma ChannelEncodes(c: Channel)
    ensures Shaped(Sum(CHANNELS), ChannelVal(c))
    ensures c.Silent? ==> Encode(Sum(CHANNELS), ChannelVal(c)) == [0]
    ensures c.SMS? ==> Encode(Sum(CHANNELS), ChannelVal(c)) == [1] + Encode(Blob, Text(c.number))
    ensures c.Push? ==> Encode(Sum(CHANNELS), ChannelVal(c)) == [2] + Encode(UInt(8), Num(c.token))
    ensures c.Invoice? ==>
            Shaped(MONEY, MoneyVal(c.money)) &&
            Encode(Sum(CHANNELS), ChannelVal(c)) == [3] + Encode(MONEY, MoneyVal(c.money))
  {
    match c
    case Silent =>
      assert CHANNELS[0] == Record([]) && Shaped(Record([]), Fields([])) && Encode(Record([]), Fields([])) == [];
    case SMS(s) => assert CHANNELS[1] == Blob;
    case Push(n) => assert CHANNELS[2] == UInt(8);
    case Invoice(m) =>
      MoneyShaped(m);
      hide MoneyVal;
      assert CHANNELS[3] == MONEY;
  }

  /** The tag's position, then the payload; nothing at all for a silent one. */
  method AppendChannel(buf: seq<byte>, c: Channel) returns (out: seq<byte>)
    ensures Shaped(Sum(CHANNELS), ChannelVal(c)) && out == buf + Encode(Sum(CHANNELS), ChannelVal(c))
  {
    hide Encode, Shaped, MoneyVal, ChannelVal, CHANNELS;
    ChannelEncodes(c);
    match c
    case Silent => out := buf + [0];
    case SMS(s) => out := AppendLenStr(buf + [1], s);
    case Push(n) => out := AppendUInt(buf + [2], n, 8);
    case Invoice(m) => out := AppendMoney(buf + [3], m);
  }

  lemma RecordShaped(n: Notification)
    ensures |FORMATS| == |Values(n)| == 3 && forall j | 0 <= j < 3 :: Shaped(FORMATS[j], Values(n)[j])
  {
    ChannelEncodes(n.channel);
    hide ChannelVal, CHANNELS;
  }

  /** The first `i` fields are out. */
  ghost predicate Out(n: Notification, i: nat, buf: seq<byte>) { WroteFields(FORMATS, Values(n), i, buf) }

  method EncodeNotification(n: Notification) returns (buf: seq<byte>)
    ensures Shaped(NOTIFICATION, Fields(Values(n))) && buf == Encode(NOTIFICATION, Fields(Values(n)))
  {
    hide Encode, Shaped, WroteFields, ChannelVal, CHANNELS;
    ghost var fs, vs := FORMATS, Values(n);
    RecordShaped(n);
    buf := [];
    StartWriting(fs, vs);
    Next(fs, vs, 0, buf);
    buf := AppendUInt(buf, n.id, 4);
    Next(fs, vs, 1, buf);
    buf := AppendChannel(buf, n.channel);
    Next(fs, vs, 2, buf);
    buf := AppendFlag(buf, n.urgent);
    Written(fs, vs, buf);
  }

  // ---- reading -------------------------------------------------------------

  lemma SumDecode(fs: seq<Fmt>, tag: byte, t: seq<byte>)
    ensures tag >= |fs| ==> Decode(Sum(fs), [tag] + t) == BadOrdinal
    ensures tag < |fs| ==> Decode(Sum(fs), [tag] + t) == Lift(Decode(fs[tag], t), v => Tagged(tag, v))
  {
    assert ([tag] + t)[1..] == t;
  }

  lemma SilentDecode(t: seq<byte>)
    ensures Decode(Record([]), t) == Got(Fields([]), t)
  {
  }

  /** A channel whose ordinal has been read. */
  method ReadChannel(ord: byte, t: seq<byte>) returns (r: Read<Channel>)
    ensures r.Truncated? ==> Decode(Sum(CHANNELS), [ord] + t) == Truncated
    ensures r.BadOrdinal? ==> Decode(Sum(CHANNELS), [ord] + t) == BadOrdinal
    ensures r.Got? ==> Decode(Sum(CHANNELS), [ord] + t) == Got(ChannelVal(r.value), r.rest)
  {
    SumDecode(CHANNELS, ord, t);
    assert |CHANNELS| == 4 && CHANNELS[0] == Record([]) && CHANNELS[1] == Blob && CHANNELS[2] == UInt(8) &&
        CHANNELS[3] == MONEY;
    hide Decode, MoneyVal, CHANNELS;
    if ord == 0 {
      SilentDecode(t);
      r := Got(Silent, t);
    } else if ord == 1 {
      var s := ReadLenStr(t);
      if !s.Got? { return Truncated; }
      r := Got(SMS(s.value), s.rest);
    } else if ord == 2 {
      var n := ReadUInt(t, 8);
      if !n.Got? { return Truncated; }
      r := Got(Push(n.value), n.rest);
    } else if ord == 3 {
      var m := ReadMoney(t);
      if !m.Got? { return Truncated; }
      r := Got(Invoice(m.value), m.rest);
    } else {
      r := BadOrdinal;
    }
  }

  lemma HeadShort(b: seq<byte>, vs: seq<Val>)
    requires Filled(FORMATS, b, vs, 0, b) && |b| < 5
    ensures DecodeFields(FORMATS, b) == Truncated
  {
    hide Filled, DecodeFields, RunWidth, CHANNELS;
    RunNone(FORMATS, 1);
    RunStep(FORMATS, 0, 1);
    FillShort(FORMATS, b, vs, 0, b, 1);
  }

  /** The number and the ordinal behind one check, the channel, the flag. */
  method DecodeNotification(b: seq<byte>) returns (v: Verdict, n: Notification)
    ensures v.Short? ==> Decode(NOTIFICATION, b) == Truncated
    ensures v.UnknownOrdinal? ==> Decode(NOTIFICATION, b) == BadOrdinal
    ensures v.Done? ==> Decode(NOTIFICATION, b).Got? && Decode(NOTIFICATION, b).value == Fields(Values(n))
  {
    ghost var fs := FORMATS;
    RecordDecode(fs, b);
    hide Decode, DecodeFields, Filled, ChannelVal, CHANNELS;
    n, v := Notification(0, Silent, false), Short;
    ghost var vs := Values(n);
    FillStart(fs, b, vs);
    if |b| < 5 {
      HeadShort(b, vs);
      return;
    }
    assert b[0..] == b && b[4..] == [b[4]] + b[5..];
    var id := NumAt(b, 0, 4, false);
    vs := Fill(fs, b, vs, 0, b, Num(id), b[4..]);
    FillFails(fs, b, vs, 1, b[4..]);
    var channel := ReadChannel(b[4], b[5..]);
    if channel.Truncated? { return; }
    if channel.BadOrdinal? { return UnknownOrdinal, n; }
    vs := Fill(fs, b, vs, 1, b[4..], ChannelVal(channel.value), channel.rest);
    var t := channel.rest;
    FillFails(fs, b, vs, 2, t);
    ShortFlag(t);
    if |t| < 1 { return; }
    FlagAt(t, 0);
    assert t[0..] == t;
    vs := Fill(fs, b, vs, 2, t, Bit(t[0] != 0), t[1..]);
    n, v := Notification(id, channel.value, t[0] != 0), Done;
    assert vs == Values(n);
    FillEnd(fs, b, vs, t[1..]);
  }

  // ---- the record ----------------------------------------------------------

  class NotificationRecord {
    var id: int
    var channel: Option<Channel>
    var urgent: bool

    constructor () {
      id, channel, urgent := 0, None, false;
    }

    function View(): Notification
      requires channel.Some?
      reads this
    {
      Notification(id, channel.value, urgent)
    }

    /** An error exactly without a channel. */
    method MarshalBinary() returns (out: Option<seq<byte>>)
      ensures out.Some? <==> channel.Some?
      ensures out.Some? ==>
              Shaped(NOTIFICATION, Fields(Values(View()))) && out.value == Encode(NOTIFICATION, Fields(Values(View())))
    {
      if channel.None? { return None; }
      hide Encode, Shaped, Values;
      var buf := EncodeNotification(View());
      out := Some(buf);
    }

    /** Every input: the record is filled and Done, or the input was short, or the
        ordinal was unknown, just as the format says. */
    method UnmarshalBinary(b: seq<byte>) returns (v: Verdict)
      modifies this
      ensures v.Short? ==> Decode(NOTIFICATION, b) == Truncated
      ensures v.UnknownOrdinal? ==> Decode(NOTIFICATION, b) == BadOrdinal
      ensures v.Done? ==>
              channel.Some? && Decode(NOTIFICATION, b).Got? && Decode(NOTIFICATION, b).value == Fields(Values(View()))
    {
      hide Decode, Values;
      var n;
      v, n := DecodeNotification(b);
      if v.Done? {
        id, channel, urgent := n.id, Some(n.channel), n.urgent;
        assert View() == n;
      }
    }
  }

  // ---- there and back ------------------------------------------------------

  lemma ChannelMeaning(c: Channel)
    ensures Meaning(ChannelVal(c)) == ChannelVal(c)
  {
    if c.Invoice? {
      MoneyMeaning(c.money);
      hide MoneyVal;
    }
  }

  lemma SameChannel(c: Channel, d: Channel)
    requires ChannelVal(c) == ChannelVal(d)
    ensures c == d
  {
    if c.Invoice? && d.Invoice? {
      SameMoney(c.money, d.money);
    }
  }

  /** The values determine the notification. */
  lemma SameNotification(n: Notification, m: Notification)
    requires Values(n) == Values(m)
    ensures n == m
  {
    hide ChannelVal;
    var x, y := Values(n), Values(m);
    assert x[0] == y[0] && x[1] == y[1] && x[2] == y[2];
    SameChannel(n.channel, m.channel);
  }

  /** Numbers in the range of their width, lengths below 2^32. */
  predicate InLimits(n: Notification) {
    Shaped(NOTIFICATION, Fields(Values(n))) && Fits(NOTIFICATION, Fields(Values(n)))
  }

  lemma NotificationBack(n: Notification, cut: nat)
    requires InLimits(n)
    ensures var vs := Values(n);
            && Shaped(NOTIFICATION, Fields(vs)) && |Encode(NOTIFICATION, Fields(vs))| > 0
            && Decode(NOTIFICATION, Encode(NOTIFICATION, Fields(vs))) == Got(Fields(vs), [])
            && (cut < |Encode(NOTIFICATION, Fields(vs))| ==>
                  Decode(NOTIFICATION, Encode(NOTIFICATION, Fields(vs))[..cut]) == Truncated)
  {
    var vs := Values(n);
    ChannelMeaning(n.channel);
    hide Encode, Decode, Shaped, Fits, ChannelVal, CHANNELS;
    assert forall i | 0 <= i < 3 :: Meaning(vs[i]) == vs[i];
    RecordNotEmpty(FORMATS, vs);
    RecordBack(FORMATS, vs, vs, cut);
  }

  /** Writing a notification and reading it back gives the same one; and every strict
      prefix of the bytes is short. */
  method WriteAndRead(rec: NotificationRecord, cut: nat) returns (back: NotificationRecord, v: Verdict, w: Verdict)
    requires rec.channel.Some? && InLimits(rec.View())
    ensures v == Done && fresh(back) && back.channel.Some? && back.View() == rec.View()
    ensures w == Short
  {
    ghost var n := rec.View();
    var bytes := rec.MarshalBinary();
    var out := bytes.value;
    hide Encode, Decode, Shaped, Values, InLimits;
    NotificationBack(n, 0);
    var k := cut % |out|;
    NotificationBack(n, k);
    back := new NotificationRecord();
    v := back.UnmarshalBinary(out);
    SameNotification(back.View(), n);
    var scratch := new NotificationRecord();
    w := scratch.UnmarshalBinary(out[..k]);
  }
}
