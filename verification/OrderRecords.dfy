/** The Go order record (examples/appdata/go/order.go): an enum, a list of structs, a
    map of structs and an optional struct. */
module OrderRecords {
  import opened Common
  import opened LittleEndian
  import opened Layout
  import opened Records
  import opened Blocks

  /** Everything a record holds; the status is its ordinal. */
  datatype Order = Order(
    orderID: int, customerID: int, createdAt: int, status: nat, items: seq<LineItem>, subtotal: Money,
    adjustments: map<seq<byte>, Money>, total: Money, shipping: Address, billing: Option<Address>,
    couponCodes: seq<seq<byte>>, trackingNumber: Option<seq<byte>>)

  function OrderFmt(i: nat): Fmt
    requires i < 12
  {
    match i
    case 0 => NumFmt(8, false)
    case 1 => NumFmt(8, false)
    case 2 => NumFmt(8, true)
    case 3 => Enum(5)
    case 4 => List(LINE_ITEM)
    case 5 => MONEY
    case 6 => Dict(MONEY)
    case 7 => MONEY
    case 8 => ADDRESS
    case 9 => Optional(ADDRESS)
    case 10 => List(Blob)
    case _ => Optional(Blob)
  }

  /** The values of the fields, the adjustments as `adj`. */
  function OrderVal(o: Order, adj: Val, i: nat): Val
    requires i < 12
  {
    match i
    case 0 => Num(o.orderID)
    case 1 => Num(o.customerID)
    case 2 => Num(o.createdAt)
    case 3 => Tagged(o.status, Nothing)
    case 4 => Many(Vals(o.items, LineItemVal))
    case 5 => MoneyVal(o.subtotal)
    case 6 => adj
    case 7 => MoneyVal(o.total)
    case 8 => AddressVal(o.shipping)
    case 9 => OptVal(o.billing, AddressVal)
    case 10 => Many(Vals(o.couponCodes, TextVal))
    case _ => OptVal(o.trackingNumber, TextVal)
  }

  function Formats(): (fs: seq<Fmt>)
    ensures |fs| == 12 && forall i | 0 <= i < 12 :: fs[i] == OrderFmt(i)
  {
    seq(12, i requires 0 <= i < 12 => OrderFmt(i))
  }

  function Values(o: Order, adj: Val): (vs: seq<Val>)
    ensures |vs| == 12 && forall i | 0 <= i < 12 :: vs[i] == OrderVal(o, adj, i)
  {
    seq(12, i requires 0 <= i < 12 => OrderVal(o, adj, i))
  }

  const ORDER := Record(Formats())

  /** The adjustments listed in this order. */
  function Listing(o: Order, keys: seq<seq<byte>>): Val
    requires forall k | k in keys :: k in o.adjustments
  {
    Entries(keys, Listed(o.adjustments, keys, MoneyVal))
  }

  function Decoded(o: Order): Val { Mapping(Mapped(o.adjustments, MoneyVal)) }

  /** The values a decoder gives for the record. */
  function DecodedValues(o: Order): seq<Val> { Values(o, Decoded(o)) }

  // ---- writing -------------------------------------------------------------

  lemma LineItemShaped(it: LineItem)
    ensures Shaped(LINE_ITEM, LineItemVal(it))
  {
    var fs, vs := LineParts(it);
    AllShaped(fs, vs);
  }

  lemma ItemsShaped(items: seq<LineItem>)
    ensures (forall v | v in Vals(items, LineItemVal) :: Shaped(LINE_ITEM, v))
    ensures Shaped(List(LINE_ITEM), Many(Vals(items, LineItemVal)))
    ensures Encode(List(LINE_ITEM), Many(Vals(items, LineItemVal))) ==
            Count(|items|) + EncodeAll(LINE_ITEM, Vals(items, LineItemVal))
  {
    hide LineItemVal, Encode, EncodeAll, Shaped;
    forall i | 0 <= i < |items| ensures Shaped(LINE_ITEM, LineItemVal(items[i])) { LineItemShaped(items[i]); }
    ValsShaped(LINE_ITEM, items, LineItemVal);
    ManyShaped(LINE_ITEM, Vals(items, LineItemVal));
  }

  lemma AdjustmentsShaped(m: map<seq<byte>, Money>, keys: seq<seq<byte>>)
    requires Lists(keys, m)
    ensures (forall k | k in keys :: k in m) && Shaped(Dict(MONEY), Entries(keys, Listed(m, keys, MoneyVal)))
  {
    hide Encode, EncodeEntries, Listed, AllDifferent, MoneyVal;
    forall k | k in m ensures Shaped(MONEY, MoneyVal(m[k])) { MoneyShaped(m[k]); }
    DictListed(MONEY, m, keys, MoneyVal);
  }

  lemma BillingShaped(a: Option<Address>)
    ensures Shaped(Optional(ADDRESS), OptVal(a, AddressVal))
  {
    hide AddressVal;
    if a.Some? { AddressShaped(a.value); }
    OptShaped(ADDRESS, a, AddressVal);
  }

  lemma FieldShaped(o: Order, keys: seq<seq<byte>>, i: nat)
    requires i < 12 && o.status < 5 && Lists(keys, o.adjustments)
    ensures (forall k | k in keys :: k in o.adjustments) && Shaped(OrderFmt(i), OrderVal(o, Listing(o, keys), i))
  {
    hide Vals, Lists, Listed, MoneyVal, AddressVal, LineItemVal, OptVal;
    AdjustmentsShaped(o.adjustments, keys);
    match i
    case 4 => ItemsShaped(o.items);
    case 5 => MoneyShaped(o.subtotal);
    case 7 => MoneyShaped(o.total);
    case 8 => AddressShaped(o.shipping);
    case 9 => BillingShaped(o.billing);
    case 10 => TextsShaped(o.couponCodes);
    case 11 => OptShaped(Blob, o.trackingNumber, TextVal);
    case _ =>
  }

  lemma RecordShaped(o: Order, keys: seq<seq<byte>>)
    requires o.status < 5 && Lists(keys, o.adjustments)
    ensures forall k | k in keys :: k in o.adjustments
    ensures forall j | 0 <= j < 12 :: Shaped(Formats()[j], Values(o, Listing(o, keys))[j])
  {
    hide Shaped, OrderFmt, OrderVal, Formats, Values, Lists;
    ListsAre(keys, o.adjustments);
    forall j | 0 <= j < 12 ensures Shaped(Formats()[j], Values(o, Listing(o, keys))[j]) { FieldShaped(o, keys, j); }
  }

  /** The first `i` fields are out. */
  ghost predicate Out(o: Order, adj: Val, i: nat, buf: seq<byte>) { WroteFields(Formats(), Values(o, adj), i, buf) }

  lemma FirstOut(o: Order, keys: seq<seq<byte>>)
    requires o.status < 5 && Lists(keys, o.adjustments)
    ensures (forall k | k in keys :: k in o.adjustments) && Out(o, Listing(o, keys), 0, [])
  {
    hide Shaped, WroteFields, Lists;
    RecordShaped(o, keys);
    StartWriting(Formats(), Values(o, Listing(o, keys)));
  }

  lemma NextOut(o: Order, adj: Val, i: nat, buf: seq<byte>)
    requires i < 12 && Out(o, adj, i, buf)
    ensures Shaped(OrderFmt(i), OrderVal(o, adj, i)) &&
            Out(o, adj, i + 1, buf + Encode(OrderFmt(i), OrderVal(o, adj, i)))
  {
    hide Encode, Shaped, WroteFields, OrderFmt, OrderVal;
    Next(Formats(), Values(o, adj), i, buf);
  }

  lemma AllOut(o: Order, adj: Val, buf: seq<byte>)
    requires Out(o, adj, 12, buf)
    ensures Shaped(ORDER, Fields(Values(o, adj))) && buf == Encode(ORDER, Fields(Values(o, adj)))
  {
    hide Encode, Shaped, WroteFields, Formats, Values;
    Written(Formats(), Values(o, adj), buf);
  }

  /** The count, then each item. */
  method AppendItems(buf: seq<byte>, items: seq<LineItem>) returns (out: seq<byte>)
    ensures Shaped(List(LINE_ITEM), Many(Vals(items, LineItemVal)))
    ensures out == buf + Encode(List(LINE_ITEM), Many(Vals(items, LineItemVal)))
  {
    hide Encode, EncodeAll, Shaped, Wrote, LineItemVal, Count;
    ghost var vs := Vals(items, LineItemVal);
    ItemsShaped(items);
    out := AppendCount(buf, |items|);
    ghost var head := out;
    WroteNone(LINE_ITEM, vs, head);
    for i := 0 to |items|
      invariant Wrote(LINE_ITEM, vs, head, i, out)
    {
      WroteOne(LINE_ITEM, vs, head, i, out);
      out := AppendLineItem(out, items[i]);
    }
    WroteAll(LINE_ITEM, vs, head, out);
  }

  method AppendAdjustments(buf: seq<byte>, m: map<seq<byte>, Money>, keys: seq<seq<byte>>) returns (out: seq<byte>)
    requires Lists(keys, m)
    ensures forall k | k in keys :: k in m
    ensures Shaped(Dict(MONEY), Entries(keys, Listed(m, keys, MoneyVal)))
    ensures out == buf + Encode(Dict(MONEY), Entries(keys, Listed(m, keys, MoneyVal)))
  {
    hide Encode, EncodeEntries, Shaped, WroteEntries, Count, Lists, Listed, MoneyVal;
    forall k | k in m ensures Shaped(MONEY, MoneyVal(m[k])) { MoneyShaped(m[k]); }
    DictListed(MONEY, m, keys, MoneyVal);
    ghost var vs := Listed(m, keys, MoneyVal);
    out := AppendCount(buf, |keys|);
    ghost var head := out;
    WroteNoEntries(MONEY, keys, vs, head);
    for i := 0 to |keys|
      invariant WroteEntries(MONEY, keys, vs, head, i, out)
    {
      WroteEntry(MONEY, keys, vs, head, i, out);
      out := AppendLenStr(out, keys[i]);
      out := AppendMoney(out, m[keys[i]]);
    }
    WroteAllEntries(MONEY, keys, vs, head, out);
  }

  /** A presence flag, then the address. */
  method AppendBilling(buf: seq<byte>, a: Option<Address>) returns (out: seq<byte>)
    ensures Shaped(Optional(ADDRESS), OptVal(a, AddressVal)) &&
            out == buf + Encode(Optional(ADDRESS), OptVal(a, AddressVal))
  {
    hide Encode, Shaped, AddressVal;
    if a.None? {
      OptShaped(ADDRESS, a, AddressVal);
      return buf + [0];
    }
    AddressShaped(a.value);
    OptShaped(ADDRESS, a, AddressVal);
    out := AppendAddress(buf + [1], a.value);
  }

  /** Up to the subtotal. */
  method AppendHead(o: Order, ghost adj: Val, buf0: seq<byte>) returns (buf: seq<byte>)
    requires o.status < 5 && Out(o, adj, 0, buf0)
    ensures Out(o, adj, 6, buf)
  {
    hide Encode, Out, Shaped, Vals, NumFmt, MoneyVal, LineItemVal;
    buf := buf0;
    NextOut(o, adj, 0, buf);
    buf := AppendNum(buf, o.orderID, 8, false);
    NextOut(o, adj, 1, buf);
    buf := AppendNum(buf, o.customerID, 8, false);
    NextOut(o, adj, 2, buf);
    buf := AppendNum(buf, o.createdAt, 8, true);
    NextOut(o, adj, 3, buf);
    OrdinalEncode(5, o.status);
    buf := buf + [o.status];
    NextOut(o, adj, 4, buf);
    buf := AppendItems(buf, o.items);
    NextOut(o, adj, 5, buf);
    buf := AppendMoney(buf, o.subtotal);
  }

  /** The others, the adjustments in the order of their keys. */
  method AppendLast(o: Order, keys: seq<seq<byte>>, buf0: seq<byte>) returns (buf: seq<byte>)
    requires Lists(keys, o.adjustments) && (forall k | k in keys :: k in o.adjustments)
    requires Out(o, Listing(o, keys), 6, buf0)
    ensures Shaped(ORDER, Fields(Values(o, Listing(o, keys)))) &&
            buf == Encode(ORDER, Fields(Values(o, Listing(o, keys))))
  {
    hide Encode, Out, Shaped, Vals, MoneyVal, AddressVal, Lists, Listed, OptVal;
    ghost var adj := Listing(o, keys);
    buf := buf0;
    NextOut(o, adj, 6, buf);
    buf := AppendAdjustments(buf, o.adjustments, keys);
    NextOut(o, adj, 7, buf);
    buf := AppendMoney(buf, o.total);
    NextOut(o, adj, 8, buf);
    buf := AppendAddress(buf, o.shipping);
    NextOut(o, adj, 9, buf);
    buf := AppendBilling(buf, o.billing);
    NextOut(o, adj, 10, buf);
    buf := AppendTexts(buf, o.couponCodes);
    NextOut(o, adj, 11, buf);
    buf := AppendOptText(buf, o.trackingNumber);
    AllOut(o, adj, buf);
  }

  // ---- reading -------------------------------------------------------------

  /** The first values are those a decoder gives for the record. */
  ghost predicate Holds(vs: seq<Val>, o: Order, to: nat) {
    |vs| == 12 && to <= 12 && forall i | 0 <= i < to :: vs[i] == OrderVal(o, Decoded(o), i)
  }

  const NO_MONEY := Money([], 0)
  const NOWHERE := Address([], [], [], [], [])
  const BLANK := Order(0, 0, 0, 0, [], NO_MONEY, map[], NO_MONEY, NOWHERE, None, [], None)

  lemma HeadShort(b: seq<byte>, vs: seq<Val>)
    requires Filled(Formats(), b, vs, 0, b) && |b| < 25
    ensures DecodeFields(Formats(), b) == Truncated
  {
    hide Filled, Formats, DecodeFields, RunWidth;
    RunNone(Formats(), 3);
    RunStep(Formats(), 2, 3);
    RunStep(Formats(), 1, 3);
    RunStep(Formats(), 0, 3);
    FillShort(Formats(), b, vs, 0, b, 3);
  }

  /** Three numbers and the ordinal behind one check. */
  method ReadHead(b: seq<byte>) returns (v: Verdict, o: Order, t: seq<byte>, ghost vs: seq<Val>)
    ensures v.Short? ==> DecodeFields(Formats(), b) == Truncated
    ensures v.UnknownOrdinal? ==> DecodeFields(Formats(), b) == BadOrdinal
    ensures v.Done? ==> o.status < 5 && Filled(Formats(), b, vs, 4, t) && Holds(vs, o, 4)
  {
    hide Decode, DecodeFields, Filled, NumFmt, Formats, Values, Decoded, Vals, MoneyVal, AddressVal;
    o, t, v, vs := BLANK, b, Short, Values(BLANK, Nothing);
    FillStart(Formats(), b, vs);
    if |b| < 25 {
      HeadShort(b, vs);
      return;
    }
    assert b[0..] == b && b[24..][1..] == b[25..];
    var id := NumAt(b, 0, 8, false);
    vs := Fill(Formats(), b, vs, 0, b, Num(id), b[8..]);
    var customer := NumAt(b, 8, 8, false);
    vs := Fill(Formats(), b, vs, 1, b[8..], Num(customer), b[16..]);
    var created := NumAt(b, 16, 8, true);
    vs := Fill(Formats(), b, vs, 2, b[16..], Num(created), b[24..]);
    FillFails(Formats(), b, vs, 3, b[24..]);
    OrdinalDecode(5, b[24..]);
    if b[24] >= 5 {
      v := UnknownOrdinal;
      return;
    }
    vs := Fill(Formats(), b, vs, 3, b[24..], Tagged(b[24], Nothing), b[25..]);
    o := o.(orderID := id, customerID := customer, createdAt := created, status := b[24]);
    t, v := b[25..], Done;
  }

  method ReadItems(b: seq<byte>) returns (r: Read<seq<LineItem>>)
    ensures !r.BadOrdinal? && (r.Truncated? ==> Decode(List(LINE_ITEM), b) == Truncated)
    ensures r.Got? ==> Decode(List(LINE_ITEM), b) == Got(Many(Vals(r.value, LineItemVal)), r.rest)
  {
    ListDecode(LINE_ITEM, b);
    hide Decode, DecodeAll, ReadCount, AllTo, Vals, LineItemVal;
    var count := ReadCountOf(b);
    if !count.Got? { return Truncated; }
    var n, t := count.value, count.rest;
    AllStart(LINE_ITEM, n, t);
    ghost var all := t;
    var items: seq<LineItem> := [];
    ghost var vals: seq<Val> := [];
    for i := 0 to n
      invariant |items| == |vals| == i && forall j | 0 <= j < i :: vals[j] == LineItemVal(items[j])
      invariant AllTo(LINE_ITEM, n, all, i, vals, t)
    {
      AllNext(LINE_ITEM, n, all, i, vals, t);
      var it := ReadLineItem(t);
      if !it.Got? { return Truncated; }
      items := items + [it.value];
      vals := vals + [LineItemVal(it.value)];
      t := it.rest;
    }
    AllEnd(LINE_ITEM, n, all, vals, t);
    assert vals == Vals(items, LineItemVal);
    r := Got(items, t);
  }

  method ReadAdjustments(b: seq<byte>) returns (r: Read<map<seq<byte>, Money>>)
    ensures !r.BadOrdinal? && (r.Truncated? ==> Decode(Dict(MONEY), b) == Truncated)
    ensures r.Got? ==> Decode(Dict(MONEY), b) == Got(Mapping(Mapped(r.value, MoneyVal)), r.rest)
  {
    DictDecode(MONEY, b);
    hide Decode, DecodeEntries, ReadCount, ReadBlob, Mapped, MoneyVal;
    var count := ReadCountOf(b);
    if !count.Got? { return Truncated; }
    var n, t := count.value, count.rest;
    ghost var all := t;
    var m: map<seq<byte>, Money> := map[];
    assert Mapped(m, MoneyVal) == map[];
    for i := 0 to n
      invariant DecodeEntries(MONEY, n, all, map[]) == DecodeEntries(MONEY, n - i, t, Mapped(m, MoneyVal))
    {
      EntryNext(MONEY, n - i, t, Mapped(m, MoneyVal));
      var k := ReadLenStr(t);
      if !k.Got? { return Truncated; }
      var v := ReadMoney(k.rest);
      if !v.Got? { return Truncated; }
      MappedMore(m, k.value, v.value, MoneyVal);
      m := m[k.value := v.value];
      t := v.rest;
    }
    NoMoreEntries(MONEY, t, Mapped(m, MoneyVal));
    r := Got(m, t);
  }

  method ReadBilling(b: seq<byte>) returns (r: Read<Option<Address>>)
    ensures !r.BadOrdinal? && (r.Truncated? ==> Decode(Optional(ADDRESS), b) == Truncated)
    ensures r.Got? ==> Decode(Optional(ADDRESS), b) == Got(OptVal(r.value, AddressVal), r.rest)
  {
    OptionalDecode(ADDRESS, b);
    hide Decode, AddressVal;
    if |b| < 1 { return Truncated; }
    if b[0] == 0 { return Got(None, b[1..]); }
    var a := ReadAddress(b[1..]);
    if !a.Got? { return Truncated; }
    r := Got(Some(a.value), a.rest);
  }

  /** The items, the subtotal and the adjustments. */
  method ReadMiddle(ghost b: seq<byte>, o0: Order, t0: seq<byte>, ghost vs0: seq<Val>)
    returns (v: Verdict, o: Order, t: seq<byte>, ghost vs: seq<Val>)
    requires o0.status < 5 && Filled(Formats(), b, vs0, 4, t0) && Holds(vs0, o0, 4)
    ensures !v.UnknownOrdinal? && (v.Short? ==> DecodeFields(Formats(), b) == Truncated)
    ensures v.Done? ==> o.status < 5 && Filled(Formats(), b, vs, 7, t) && Holds(vs, o, 7)
  {
    hide Decode, DecodeFields, Filled, Vals, Formats, MoneyVal, AddressVal, LineItemVal, Mapped;
    o, t, v, vs := o0, t0, Short, vs0;
    FillFails(Formats(), b, vs, 4, t);
    var items := ReadItems(t);
    if !items.Got? { return; }
    vs := Fill(Formats(), b, vs, 4, t, Many(Vals(items.value, LineItemVal)), items.rest);
    FillFails(Formats(), b, vs, 5, items.rest);
    var subtotal := ReadMoney(items.rest);
    if !subtotal.Got? { return; }
    vs := Fill(Formats(), b, vs, 5, items.rest, MoneyVal(subtotal.value), subtotal.rest);
    FillFails(Formats(), b, vs, 6, subtotal.rest);
    var adj := ReadAdjustments(subtotal.rest);
    if !adj.Got? { return; }
    vs := Fill(Formats(), b, vs, 6, subtotal.rest, Mapping(Mapped(adj.value, MoneyVal)), adj.rest);
    o := o.(items := items.value, subtotal := subtotal.value, adjustments := adj.value);
    t, v := adj.rest, Done;
  }

  /** The total and the two addresses. */
  method ReadAddressesPart(ghost b: seq<byte>, o0: Order, t0: seq<byte>, ghost vs0: seq<Val>)
    returns (v: Verdict, o: Order, t: seq<byte>, ghost vs: seq<Val>)
    requires o0.status < 5 && Filled(Formats(), b, vs0, 7, t0) && Holds(vs0, o0, 7)
    ensures !v.UnknownOrdinal? && (v.Short? ==> DecodeFields(Formats(), b) == Truncated)
    ensures v.Done? ==> o.status < 5 && Filled(Formats(), b, vs, 10, t) && Holds(vs, o, 10)
  {
    hide Decode, DecodeFields, Filled, Vals, Formats, MoneyVal, AddressVal, LineItemVal, Decoded, OptVal;
    o, t, v, vs := o0, t0, Short, vs0;
    FillFails(Formats(), b, vs, 7, t);
    var total := ReadMoney(t);
    if !total.Got? { return; }
    vs := Fill(Formats(), b, vs, 7, t, MoneyVal(total.value), total.rest);
    FillFails(Formats(), b, vs, 8, total.rest);
    var shipping := ReadAddress(total.rest);
    if !shipping.Got? { return; }
    vs := Fill(Formats(), b, vs, 8, total.rest, AddressVal(shipping.value), shipping.rest);
    FillFails(Formats(), b, vs, 9, shipping.rest);
    var billing := ReadBilling(shipping.rest);
    if !billing.Got? { return; }
    vs := Fill(Formats(), b, vs, 9, shipping.rest, OptVal(billing.value, AddressVal), billing.rest);
    o := o.(total := total.value, shipping := shipping.value, billing := billing.value);
    DecodedKept(o0, o);
    t, v := billing.rest, Done;
  }

  lemma DecodedKept(o: Order, p: Order)
    requires o.adjustments == p.adjustments
    ensures Decoded(o) == Decoded(p)
  {
  }

  /** The codes and the tracking number. */
  method ReadLast(b: seq<byte>, o0: Order, t0: seq<byte>, ghost vs0: seq<Val>) returns (v: Verdict, o: Order)
    requires o0.status < 5 && Filled(Formats(), b, vs0, 10, t0) && Holds(vs0, o0, 10)
    ensures !v.UnknownOrdinal? && (v.Short? ==> DecodeFields(Formats(), b) == Truncated)
    ensures v.Done? ==> o.status < 5 && Decode(ORDER, b).Got? && Decode(ORDER, b).value == Fields(DecodedValues(o))
  {
    hide Decode, DecodeFields, Filled, Vals, Formats, DecodedValues, MoneyVal, AddressVal, LineItemVal, Decoded, OptVal;
    o, v := o0, Short;
    ghost var vs := vs0;
    FillFails(Formats(), b, vs, 10, t0);
    var codes := ReadTexts(t0);
    if !codes.Got? { return; }
    vs := Fill(Formats(), b, vs, 10, t0, Many(Vals(codes.value, TextVal)), codes.rest);
    FillFails(Formats(), b, vs, 11, codes.rest);
    var tracking := ReadOptText(codes.rest);
    if !tracking.Got? { return; }
    vs := Fill(Formats(), b, vs, 11, codes.rest, OptVal(tracking.value, TextVal), tracking.rest);
    o, v := o.(couponCodes := codes.value, trackingNumber := tracking.value), Done;
    DecodedKept(o0, o);
    AllHeld(vs, o);
    FillEnd(Formats(), b, vs, tracking.rest);
  }

  lemma AllHeld(vs: seq<Val>, o: Order)
    requires Holds(vs, o, 12)
    ensures vs == DecodedValues(o)
  {
  }

  /** Reading the fields, one block after the other. */
  method DecodeOrder(b: seq<byte>) returns (v: Verdict, o: Order)
    ensures v.Short? ==> Decode(ORDER, b) == Truncated
    ensures v.UnknownOrdinal? ==> Decode(ORDER, b) == BadOrdinal
    ensures v.Done? ==> o.status < 5 && Decode(ORDER, b).Got? && Decode(ORDER, b).value == Fields(DecodedValues(o))
  {
    RecordDecode(Formats(), b);
    hide Decode, DecodeFields, Filled, Formats, Values, Holds, DecodedValues;
    var t;
    ghost var vs;
    v, o, t, vs := ReadHead(b);
    if !v.Done? { return; }
    v, o, t, vs := ReadMiddle(b, o, t, vs);
    if !v.Done? { return; }
    v, o, t, vs := ReadAddressesPart(b, o, t, vs);
    if !v.Done? { return; }
    v, o := ReadLast(b, o, t, vs);
  }

  // ---- the record ----------------------------------------------------------

  /** orderStatuses: an enum travels as its position in this list. */
  const STATUSES: seq<string> := ["pending", "paid", "shipped", "delivered", "cancelled"]

  lemma StatusesDiffer(i: nat)
    requires i < 5
    ensures IndexOf(STATUSES, STATUSES[i]) == i
  {
    var j := IndexOf(STATUSES, STATUSES[i]);
    assert STATUSES[j] == STATUSES[i];
    assert |STATUSES[0]| == 7 && |STATUSES[1]| == 4 && |STATUSES[2]| == 7 && |STATUSES[3]| == 9 && |STATUSES[4]| == 9;
    assert STATUSES[0][0] == 'p' && STATUSES[2][0] == 's' && STATUSES[3][0] == 'd' && STATUSES[4][0] == 'c';
  }

  class OrderRecord {
    var orderID: int
    var customerID: int
    var createdAt: int
    var status: string
    var items: seq<LineItem>
    var subtotal: Money
    var adjustments: map<seq<byte>, Money>
    var total: Money
    var shipping: Address
    var billing: Option<Address>
    var couponCodes: seq<seq<byte>>
    var trackingNumber: Option<seq<byte>>

    constructor ()
      ensures status == ""
    {
      orderID, customerID, createdAt, status := 0, 0, 0, "";
      items, subtotal, adjustments, total := [], NO_MONEY, map[], NO_MONEY;
      shipping, billing, couponCodes, trackingNumber := NOWHERE, None, [], None;
    }

    /** The status is one of the declared names. */
    predicate Known()
      reads this
    {
      IndexOf(STATUSES, status) >= 0
    }

    function View(): Order
      requires Known()
      reads this
    {
      Order(orderID, customerID, createdAt, IndexOf(STATUSES, status), items, subtotal, adjustments, total, shipping,
            billing, couponCodes, trackingNumber)
    }

    /** The bytes of the record's format, the adjustments in the order the map gave; an
        error exactly on an unknown status. */
    method MarshalBinary() returns (out: Option<seq<byte>>, ghost keys: seq<seq<byte>>)
      ensures out.Some? <==> Known()
      ensures out.Some? ==> Lists(keys, adjustments) && forall k | k in keys :: k in adjustments
      ensures out.Some? ==> Shaped(ORDER, Fields(Values(View(), Listing(View(), keys)))) &&
                            out.value == Encode(ORDER, Fields(Values(View(), Listing(View(), keys))))
    {
      hide Encode, Shaped, Out, Values, Formats, Listed, Lists, IndexOf, STATUSES;
      keys := [];
      if !Known() { return None, []; }
      var o := View();
      assert |STATUSES| == 5 by { StatusesCount(); }
      var order := MapKeys(adjustments);
      keys := order;
      FirstOut(o, keys);
      var buf := AppendHead(o, Listing(o, keys), []);
      buf := AppendLast(o, order, buf);
      out := Some(buf);
    }

    method Set(o: Order)
      requires o.status < 5
      modifies this
      ensures Known() && View() == o
    {
      hide IndexOf;
      orderID, customerID, createdAt, status := o.orderID, o.customerID, o.createdAt, STATUSES[o.status];
      items, subtotal, adjustments, total := o.items, o.subtotal, o.adjustments, o.total;
      shipping, billing, couponCodes, trackingNumber := o.shipping, o.billing, o.couponCodes, o.trackingNumber;
      StatusesDiffer(o.status);
      hide STATUSES;
    }

    /** Every input: the record is filled and Done, or the input was short, or the
        ordinal was unknown, just as the format says. */
    method UnmarshalBinary(b: seq<byte>) returns (v: Verdict)
      modifies this
      ensures v.Short? ==> Decode(ORDER, b) == Truncated
      ensures v.UnknownOrdinal? ==> Decode(ORDER, b) == BadOrdinal
      ensures v.Done? ==> Known() && Decode(ORDER, b).Got? && Decode(ORDER, b).value == Fields(DecodedValues(View()))
    {
      hide Decode, DecodedValues, Formats, IndexOf, View;
      var o;
      v, o := DecodeOrder(b);
      if v.Done? { Set(o); }
    }
  }

  lemma StatusesCount()
    ensures |STATUSES| == 5
  {
  }

  // ---- there and back ------------------------------------------------------

  lemma LineItemMeaning(it: LineItem)
    ensures Meaning(LineItemVal(it)) == LineItemVal(it)
  {
    MoneyMeaning(it.unitPrice);
    PlainMeanings(LineItemVal(it).values);
  }

  lemma ItemsMeaning(items: seq<LineItem>)
    ensures Meaning(Many(Vals(items, LineItemVal))) == Many(Vals(items, LineItemVal))
  {
    hide LineItemVal, Meaning;
    var vs := Vals(items, LineItemVal);
    forall v | v in vs ensures Meaning(v) == v {
      var i :| 0 <= i < |items| && vs[i] == v;
      LineItemMeaning(items[i]);
    }
    ManyMeaning(vs);
  }

  lemma AdjustmentsMeaning(m: map<seq<byte>, Money>, keys: seq<seq<byte>>)
    requires Lists(keys, m)
    ensures (forall k | k in keys :: k in m) &&
            Meaning(Entries(keys, Listed(m, keys, MoneyVal))) == Mapping(Mapped(m, MoneyVal))
  {
    hide MoneyVal, Meaning;
    forall k | k in m ensures Meaning(MoneyVal(m[k])) == MoneyVal(m[k]) { MoneyMeaning(m[k]); }
    MapMeaning(m, keys, MoneyVal);
  }

  lemma BillingMeaning(a: Option<Address>)
    ensures Meaning(OptVal(a, AddressVal)) == OptVal(a, AddressVal)
  {
    hide AddressVal;
    if a.Some? { AddressMeaning(a.value); }
  }

  /** What an encoding stands for is the record with its map, in every listing order. */
  lemma FieldMeaning(o: Order, keys: seq<seq<byte>>, i: nat)
    requires i < 12 && Lists(keys, o.adjustments) && forall k | k in keys :: k in o.adjustments
    ensures Meaning(OrderVal(o, Listing(o, keys), i)) == OrderVal(o, Decoded(o), i)
  {
    hide Vals, Lists, Listed, Mapped, MoneyVal, AddressVal, LineItemVal;
    match i
    case 4 => ItemsMeaning(o.items);
    case 5 => MoneyMeaning(o.subtotal);
    case 6 => AdjustmentsMeaning(o.adjustments, keys);
    case 7 => MoneyMeaning(o.total);
    case 8 => AddressMeaning(o.shipping);
    case 9 => BillingMeaning(o.billing);
    case 10 => TextsMeaning(o.couponCodes);
    case _ =>
  }

  lemma SameField(o: Order, p: Order, i: nat)
    requires i < 12 && DecodedValues(o) == DecodedValues(p)
    ensures OrderVal(o, Decoded(o), i) == OrderVal(p, Decoded(p), i)
  {
    assert DecodedValues(o)[i] == DecodedValues(p)[i];
  }

  lemma SameItem(a: LineItem, b: LineItem)
    requires LineItemVal(a) == LineItemVal(b)
    ensures a == b
  {
    var x, y := LineItemVal(a).values, LineItemVal(b).values;
    assert x[0] == y[0] && x[1] == y[1] && x[2] == y[2] && x[3] == y[3] && x[4] == y[4] && x[5] == y[5];
    SameMoney(a.unitPrice, b.unitPrice);
  }

  lemma SameItems(a: seq<LineItem>, b: seq<LineItem>)
    requires Vals(a, LineItemVal) == Vals(b, LineItemVal)
    ensures a == b
  {
    hide LineItemVal;
    forall i | 0 <= i < |a| ensures a[i] == b[i] {
      assert Vals(a, LineItemVal)[i] == Vals(b, LineItemVal)[i];
      SameItem(a[i], b[i]);
    }
  }

  lemma SameAdjustments(o: Order, p: Order)
    requires DecodedValues(o) == DecodedValues(p)
    ensures o.adjustments == p.adjustments
  {
    hide DecodedValues, Mapped, MoneyVal;
    SameField(o, p, 6);
    forall k | k in o.adjustments && k in p.adjustments && MoneyVal(o.adjustments[k]) == MoneyVal(p.adjustments[k])
      ensures o.adjustments[k] == p.adjustments[k]
    {
      SameMoney(o.adjustments[k], p.adjustments[k]);
    }
    SameMap(o.adjustments, p.adjustments, MoneyVal);
  }

  lemma SameHead(o: Order, p: Order)
    requires DecodedValues(o) == DecodedValues(p)
    ensures o.orderID == p.orderID && o.customerID == p.customerID && o.createdAt == p.createdAt && o.status == p.status
    ensures o.trackingNumber == p.trackingNumber && o.couponCodes == p.couponCodes
  {
    hide DecodedValues, Decoded, Vals, MoneyVal, AddressVal, LineItemVal;
    SameField(o, p, 0);
    SameField(o, p, 1);
    SameField(o, p, 2);
    SameField(o, p, 3);
    SameField(o, p, 11);
    SameField(o, p, 10);
    SameTexts(o.couponCodes, p.couponCodes);
  }

  /** The values a decoder gives determine the record. */
  lemma SameOrder(o: Order, p: Order)
    requires DecodedValues(o) == DecodedValues(p)
    ensures o == p
  {
    hide DecodedValues, Decoded, Vals, MoneyVal, AddressVal, LineItemVal;
    SameHead(o, p);
    SameAdjustments(o, p);
    SameField(o, p, 4);
    SameItems(o.items, p.items);
    SameField(o, p, 5);
    SameMoney(o.subtotal, p.subtotal);
    SameField(o, p, 7);
    SameMoney(o.total, p.total);
    SameField(o, p, 8);
    SameAddress(o.shipping, p.shipping);
    SameField(o, p, 9);
    if o.billing.Some? && p.billing.Some? { SameAddress(o.billing.value, p.billing.value); }
  }

  /** Numbers in the range of their width, lengths below 2^32, for every order of the map. */
  ghost predicate InLimits(o: Order) {
    forall keys | Lists(keys, o.adjustments) ::
      && (forall k | k in keys :: k in o.adjustments)
      && Shaped(ORDER, Fields(Values(o, Listing(o, keys)))) && Fits(ORDER, Fields(Values(o, Listing(o, keys))))
  }

  lemma OrderBack(o: Order, keys: seq<seq<byte>>, n: nat)
    requires InLimits(o) && Lists(keys, o.adjustments)
    ensures forall k | k in keys :: k in o.adjustments
    ensures var vs := Values(o, Listing(o, keys));
            && Shaped(ORDER, Fields(vs)) && |Encode(ORDER, Fields(vs))| > 0
            && Decode(ORDER, Encode(ORDER, Fields(vs))) == Got(Fields(DecodedValues(o)), [])
            && (n < |Encode(ORDER, Fields(vs))| ==> Decode(ORDER, Encode(ORDER, Fields(vs))[..n]) == Truncated)
  {
    assert forall k | k in keys :: k in o.adjustments;
    var vs := Values(o, Listing(o, keys));
    assert Shaped(ORDER, Fields(vs)) && Fits(ORDER, Fields(vs));
    hide Encode, Decode, Shaped, Fits, InLimits, Lists, Listing, OrderVal, Decoded;
    forall i: nat | i < 12 ensures Meaning(vs[i]) == DecodedValues(o)[i] { FieldMeaning(o, keys, i); }
    RecordNotEmpty(Formats(), vs);
    RecordBack(Formats(), vs, DecodedValues(o), n);
  }

  /** Writing a record and reading it back gives the same record, whatever the order the
      adjustments were written in; and every strict prefix is short. */
  method WriteAndRead(rec: OrderRecord, cut: nat) returns (back: OrderRecord, v: Verdict, w: Verdict)
    requires rec.Known() && InLimits(rec.View())
    ensures v == Done && fresh(back) && back.Known() && back.View() == rec.View()
    ensures w == Short
  {
    ghost var o := rec.View();
    var bytes;
    ghost var keys;
    bytes, keys := rec.MarshalBinary();
    var out := bytes.value;
    hide Encode, Decode, Shaped, Values, Formats, InLimits, Lists, Listing, DecodedValues, IndexOf, STATUSES;
    OrderBack(o, keys, 0);
    var n := cut % |out|;
    OrderBack(o, keys, n);
    back := new OrderRecord();
    v := back.UnmarshalBinary(out);
    SameOrder(back.View(), o);
    var scratch := new OrderRecord();
    w := scratch.UnmarshalBinary(out[..n]);
  }
}
