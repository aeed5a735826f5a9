/** What the Go record codecs share (examples/appdata/go/order.go, customer.go, wire.go):
    amounts, addresses, line items, and how a record is written and read field by field. */
module Records {
  import opened Common
  import opened LittleEndian
  import opened Layout

  // ---- the formats ---------------------------------------------------------

  const MONEY := Record([Blob, SInt(8)])
  const FIVE_BLOBS: seq<Fmt> := [Blob, Blob, Blob, Blob, Blob]
  const ADDRESS := Record(FIVE_BLOBS)
  const LINE_FIELDS: seq<Fmt> := [Blob, Blob, UInt(2), MONEY, UInt(1), Flag]
  const LINE_ITEM := Record(LINE_FIELDS)

  // ---- field by field ------------------------------------------------------

  lemma {:induction false} FieldWritten(fs: seq<Fmt>, vs: seq<Val>, i: nat)
    requires i < |fs| == |vs| && forall j | 0 <= j < |fs| :: Shaped(fs[j], vs[j])
    ensures EncodeFields(fs[..i + 1], vs[..i + 1]) == EncodeFields(fs[..i], vs[..i]) + Encode(fs[i], vs[i])
    decreases i
  {
    hide Encode, Shaped;
    var f, v := fs[..i + 1], vs[..i + 1];
    if i == 0 {
      assert f[1..] == [] && v[1..] == [];
    } else {
      FieldWritten(fs[1..], vs[1..], i - 1);
      assert f[1..] == fs[1..][..i] && v[1..] == vs[1..][..i];
      assert fs[..i][1..] == fs[1..][..i - 1] && vs[..i][1..] == vs[1..][..i - 1];
    }
  }

  function ReadAfter(head: seq<Val>, r: Read<seq<Val>>): Read<seq<Val>> {
    match r case Got(vs, t) => Got(head + vs, t) case Truncated => Truncated case BadOrdinal => BadOrdinal
  }

  /** The fields before `i` have been read as `vals`; `b` is what is left. */
  ghost predicate ReadTo(fs: seq<Fmt>, all: seq<byte>, i: nat, vals: seq<Val>, b: seq<byte>)
    requires i <= |fs|
  {
    DecodeFields(fs, all) == ReadAfter(vals, DecodeFields(fs[i..], b))
  }

  lemma ReadNext(fs: seq<Fmt>, all: seq<byte>, i: nat, vals: seq<Val>, b: seq<byte>)
    requires i < |fs| && ReadTo(fs, all, i, vals, b)
    ensures match Decode(fs[i], b)
            case Got(v, t) => ReadTo(fs, all, i + 1, vals + [v], t)
            case Truncated => DecodeFields(fs, all) == Truncated
            case BadOrdinal => DecodeFields(fs, all) == BadOrdinal
  {
    hide Decode;
    assert fs[i..][1..] == fs[i + 1..] && fs[i..][0] == fs[i];
    match Decode(fs[i], b)
    case Got(v, t) =>
      var r := DecodeFields(fs[i + 1..], t);
      if r.Got? {
        assert vals + ([v] + r.value) == (vals + [v]) + r.value;
      }
    case _ =>
  }

  lemma ReadStart(fs: seq<Fmt>, all: seq<byte>)
    ensures ReadTo(fs, all, 0, [], all)
  {
    assert fs[0..] == fs;
    var r := DecodeFields(fs, all);
    if r.Got? {
      assert [] + r.value == r.value;
    }
  }

  lemma ReadEnd(fs: seq<Fmt>, all: seq<byte>, vals: seq<Val>, b: seq<byte>)
    requires ReadTo(fs, all, |fs|, vals, b)
    ensures DecodeFields(fs, all) == Got(vals, b)
  {
    assert fs[|fs|..] == [];
    assert vals + [] == vals;
  }

  // ---- strings, money, addresses -------------------------------------------

  datatype Money = Money(currency: seq<byte>, amountMinor: int)

  datatype Address = Address(recipient: seq<byte>, street: seq<byte>, city: seq<byte>, country: seq<byte>,
      postalCode: seq<byte>)

  datatype LineItem = LineItem(sku: seq<byte>, productName: seq<byte>, quantity: nat, unitPrice: Money,
      discountPct: byte, giftWrap: bool)

  function MoneyVal(m: Money): Val { Fields([Text(m.currency), Num(m.amountMinor)]) }

  function AddressVal(a: Address): Val {
    Fields([Text(a.recipient), Text(a.street), Text(a.city), Text(a.country), Text(a.postalCode)])
  }

  function LineItemVal(it: LineItem): Val {
    Fields([Text(it.sku), Text(it.productName), Num(it.quantity), MoneyVal(it.unitPrice), Num(it.discountPct),
        Bit(it.giftWrap)])
  }

  function Lift<A, B>(r: Read<A>, f: A -> B): Read<B> {
    match r case Got(v, t) => Got(f(v), t) case Truncated => Truncated case BadOrdinal => BadOrdinal
  }

  method AppendLenStr(buf: seq<byte>, s: seq<byte>) returns (out: seq<byte>)
    ensures out == buf + Encode(Blob, Text(s))
  {
    out := PutLE(buf, |s|, 4);
    out := out + s;
  }

  method ReadLenStr(b: seq<byte>) returns (r: Read<seq<byte>>)
    ensures r == ReadBlob(b) && !r.BadOrdinal?
    ensures !r.BadOrdinal? && (r.Truncated? ==> Decode(Blob, b) == Truncated)
    ensures r.Got? ==> Decode(Blob, b) == Got(Text(r.value), r.rest)
  {
    if |b| < 4 { return Truncated; }
    var n, _ := TakeLE(b, 0, 4);
    assert b[0..0 + 4] == b[..4];
    var t := b[4..];
    if |t| < n { return Truncated; }
    r := Got(t[..n], t[n..]);
  }

  method AppendUInt(buf: seq<byte>, n: int, k: nat) returns (out: seq<byte>)
    ensures out == buf + Encode(UInt(k), Num(n))
  {
    out := PutLE(buf, Residue(n, k), k);
  }

  method AppendSInt(buf: seq<byte>, n: int, k: nat) returns (out: seq<byte>)
    ensures out == buf + Encode(SInt(k), Num(n))
  {
    out := PutLE(buf, Residue(n, k), k);
  }

  method AppendFlag(buf: seq<byte>, b: bool) returns (out: seq<byte>)
    ensures out == buf + Encode(Flag, Bit(b))
  {
    if b {
      out := buf + [1];
    } else {
      out := buf + [0];
    }
  }

  method AppendMoney(buf: seq<byte>, m: Money) returns (out: seq<byte>)
    ensures Shaped(MONEY, MoneyVal(m)) && out == buf + Encode(MONEY, MoneyVal(m))
  {
    MoneyShaped(m);
    out := AppendLenStr(buf, m.currency);
    out := PutLE(out, Residue(m.amountMinor, 8), 8);
  }

  lemma MoneyShaped(m: Money)
    ensures Shaped(MONEY, MoneyVal(m))
    ensures Encode(MONEY, MoneyVal(m)) == Encode(Blob, Text(m.currency)) + LE(Residue(m.amountMinor, 8), 8)
  {
    var fs, vs := [Blob, SInt(8)], [Text(m.currency), Num(m.amountMinor)];
    assert fs[1..] == [SInt(8)] && vs[1..] == [Num(m.amountMinor)] && fs[1..][1..] == [] && vs[1..][1..] == [];
    hide LE, Residue, Prefixed;
    assert EncodeFields(fs[1..], vs[1..]) == Encode(SInt(8), vs[1]) + [];
  }

  method ReadMoney(b: seq<byte>) returns (r: Read<Money>)
    ensures !r.BadOrdinal? && (r.Truncated? ==> Decode(MONEY, b) == Truncated)
    ensures r.Got? ==> Decode(MONEY, b) == Got(MoneyVal(r.value), r.rest)
  {
    ghost var fs := [Blob, SInt(8)];
    ReadStart(fs, b);
    ReadNext(fs, b, 0, [], b);
    var s := ReadLenStr(b);
    if !s.Got? { return Truncated; }
    ReadNext(fs, b, 1, [Text(s.value)], s.rest);
    if |s.rest| < 8 { return Truncated; }
    var u, _ := TakeLE(s.rest, 0, 8);
    assert s.rest[0..0 + 8] == s.rest[..8];
    var m := Money(s.value, SignedFrom(u, 8));
    assert [Text(s.value)] + [Num(m.amountMinor)] == [Text(m.currency), Num(m.amountMinor)];
    ReadEnd(fs, b, [Text(m.currency), Num(m.amountMinor)], s.rest[8..]);
    r := Got(m, s.rest[8..]);
  }

  /** What has been appended is the first `i` fields. */
  ghost predicate WroteTo(fs: seq<Fmt>, vs: seq<Val>, start: seq<byte>, i: nat, buf: seq<byte>)
    requires i <= |fs| == |vs| && forall j | 0 <= j < |fs| :: Shaped(fs[j], vs[j])
  {
    buf == start + EncodeFields(fs[..i], vs[..i])
  }

  lemma WriteNext(fs: seq<Fmt>, vs: seq<Val>, start: seq<byte>, i: nat, buf: seq<byte>)
    requires i < |fs| == |vs| && forall j | 0 <= j < |fs| :: Shaped(fs[j], vs[j])
    requires WroteTo(fs, vs, start, i, buf)
    ensures WroteTo(fs, vs, start, i + 1, buf + Encode(fs[i], vs[i]))
  {
    hide Encode, EncodeFields, Shaped;
    FieldWritten(fs, vs, i);
    var done := EncodeFields(fs[..i], vs[..i]);
    assert (start + done) + Encode(fs[i], vs[i]) == start + (done + Encode(fs[i], vs[i]));
  }

  lemma WriteEnd(fs: seq<Fmt>, vs: seq<Val>, start: seq<byte>, buf: seq<byte>)
    requires |fs| == |vs| && forall j | 0 <= j < |fs| :: Shaped(fs[j], vs[j])
    requires WroteTo(fs, vs, start, |fs|, buf)
    ensures buf == start + Encode(Record(fs), Fields(vs))
  {
    assert fs[..|fs|] == fs && vs[..|vs|] == vs;
  }

  method AppendAddress(buf: seq<byte>, a: Address) returns (out: seq<byte>)
    ensures Shaped(ADDRESS, AddressVal(a)) && out == buf + Encode(ADDRESS, AddressVal(a))
  {
    var parts := [a.recipient, a.street, a.city, a.country, a.postalCode];
    ghost var vs := AddressVal(a).values;
    hide Encode, EncodeFields, WroteTo;
    out := buf;
    NothingWritten(FIVE_BLOBS, vs, buf);
    for i := 0 to 5
      invariant WroteTo(FIVE_BLOBS, vs, buf, i, out)
    {
      WriteNext(FIVE_BLOBS, vs, buf, i, out);
      assert vs[i] == Text(parts[i]) && FIVE_BLOBS[i] == Blob;
      out := AppendLenStr(out, parts[i]);
    }
    WriteEnd(FIVE_BLOBS, vs, buf, out);
  }

  lemma NothingWritten(fs: seq<Fmt>, vs: seq<Val>, start: seq<byte>)
    requires |fs| == |vs| && forall j | 0 <= j < |fs| :: Shaped(fs[j], vs[j])
    ensures WroteTo(fs, vs, start, 0, start)
  {
    assert fs[..0] == [] && vs[..0] == [];
    assert start + [] == start;
  }

  lemma RecordDecode(fs: seq<Fmt>, b: seq<byte>)
    ensures Decode(Record(fs), b) == Lift(DecodeFields(fs, b), vs => Fields(vs))
  {
  }

  method ReadAddress(b: seq<byte>) returns (r: Read<Address>)
    ensures !r.BadOrdinal? && (r.Truncated? ==> Decode(ADDRESS, b) == Truncated)
    ensures r.Got? ==> Decode(ADDRESS, b) == Got(AddressVal(r.value), r.rest)
  {
    var parts: seq<seq<byte>> := [];
    ghost var vals: seq<Val> := [];
    var t := b;
    ReadStart(FIVE_BLOBS, b);
    RecordDecode(FIVE_BLOBS, b);
    hide Decode, DecodeFields, ReadTo;
    for i := 0 to 5
      invariant |parts| == |vals| == i && forall j | 0 <= j < i :: vals[j] == Text(parts[j])
      invariant ReadTo(FIVE_BLOBS, b, i, vals, t)
    {
      ReadNext(FIVE_BLOBS, b, i, vals, t);
      var s := ReadLenStr(t);
      if !s.Got? { return Truncated; }
      parts := parts + [s.value];
      vals := vals + [Text(s.value)];
      t := s.rest;
    }
    var a := Address(parts[0], parts[1], parts[2], parts[3], parts[4]);
    assert vals == [vals[0], vals[1], vals[2], vals[3], vals[4]] == AddressVal(a).values;
    ReadEnd(FIVE_BLOBS, b, vals, t);
    r := Got(a, t);
  }

  lemma AllShaped(fs: seq<Fmt>, vs: seq<Val>)
    requires |fs| == |vs| && forall j | 0 <= j < |fs| :: Shaped(fs[j], vs[j])
    ensures Shaped(Record(fs), Fields(vs))
  {
  }

  lemma LineParts(it: LineItem) returns (fs: seq<Fmt>, vs: seq<Val>)
    ensures LINE_ITEM == Record(fs) && LineItemVal(it) == Fields(vs) && |fs| == |vs| == 6
    ensures fs[0] == Blob && fs[1] == Blob && fs[2] == UInt(2) && fs[3] == MONEY && fs[4] == UInt(1) && fs[5] == Flag
    ensures vs[0] == Text(it.sku) && vs[1] == Text(it.productName) && vs[2] == Num(it.quantity)
    ensures vs[3] == MoneyVal(it.unitPrice) && vs[4] == Num(it.discountPct) && vs[5] == Bit(it.giftWrap)
    ensures forall j | 0 <= j < |fs| :: Shaped(fs[j], vs[j])
  {
    MoneyShaped(it.unitPrice);
    fs, vs := LINE_FIELDS, LineItemVal(it).values;
  }

  method AppendLineItem(buf: seq<byte>, it: LineItem) returns (out: seq<byte>)
    ensures Shaped(LINE_ITEM, LineItemVal(it)) && out == buf + Encode(LINE_ITEM, LineItemVal(it))
  {
    hide Encode, EncodeFields, WroteTo, Shaped, MoneyVal, LineItemVal, LE;
    ghost var fs, vs := LineParts(it);
    AllShaped(fs, vs);
    out := buf;
    NothingWritten(fs, vs, buf);
    WriteNext(fs, vs, buf, 0, out);
    out := AppendLenStr(out, it.sku);
    WriteNext(fs, vs, buf, 1, out);
    out := AppendLenStr(out, it.productName);
    WriteNext(fs, vs, buf, 2, out);
    out := AppendUInt(out, it.quantity, 2);
    WriteNext(fs, vs, buf, 3, out);
    out := AppendMoney(out, it.unitPrice);
    WriteNext(fs, vs, buf, 4, out);
    OneByte(it.discountPct);
    out := out + [it.discountPct];
    WriteNext(fs, vs, buf, 5, out);
    out := AppendFlag(out, it.giftWrap);
    WriteEnd(fs, vs, buf, out);
  }

  lemma OneByte(b: byte)
    ensures Encode(UInt(1), Num(b)) == [b]
  {
    assert Pow256(1) == 256;
    assert LE(Residue(b, 1), 1) == [Residue(b, 1) % 256] + [];
  }

  method ReadUInt(b: seq<byte>, k: nat) returns (r: Read<nat>)
    ensures !r.BadOrdinal? && (r.Truncated? ==> Decode(UInt(k), b) == Truncated)
    ensures r.Got? ==> Decode(UInt(k), b) == Got(Num(r.value), r.rest)
    ensures !r.BadOrdinal? && (r.Truncated? ==> Decode(SInt(k), b) == Truncated)
    ensures r.Got? ==> Decode(SInt(k), b) == Got(Num(SignedFrom(r.value, k)), r.rest)
    ensures (r.Got? <==> |b| >= k) && !r.BadOrdinal?
    ensures r.Got? ==> r.rest == b[k..]
  {
    if |b| < k { return Truncated; }
    var u, _ := TakeLE(b, 0, k);
    assert b[0..0 + k] == b[..k];
    r := Got(u, b[k..]);
  }

  /** A line item; the discount and the flag share one length check. */
  method ReadLineItem(b: seq<byte>) returns (r: Read<LineItem>)
    ensures !r.BadOrdinal? && (r.Truncated? ==> Decode(LINE_ITEM, b) == Truncated)
    ensures r.Got? ==> Decode(LINE_ITEM, b) == Got(LineItemVal(r.value), r.rest)
  {
    ghost var fs := LINE_FIELDS;
    RecordDecode(fs, b);
    ReadStart(fs, b);
    hide Decode, DecodeFields, ReadTo, LineItemVal, MoneyVal;
    ReadNext(fs, b, 0, [], b);
    var sku := ReadLenStr(b);
    if !sku.Got? { return Truncated; }
    ghost var v1 := [] + [Text(sku.value)];
    ReadNext(fs, b, 1, v1, sku.rest);
    var name := ReadLenStr(sku.rest);
    if !name.Got? { return Truncated; }
    ghost var v2 := v1 + [Text(name.value)];
    ReadNext(fs, b, 2, v2, name.rest);
    var quantity := ReadUInt(name.rest, 2);
    if !quantity.Got? { return Truncated; }
    ghost var v3 := v2 + [Num(quantity.value)];
    ReadNext(fs, b, 3, v3, quantity.rest);
    var price := ReadMoney(quantity.rest);
    if !price.Got? { return Truncated; }
    ghost var v4 := v3 + [MoneyVal(price.value)];
    r := ReadTail(b, v4, price.rest, sku.value, name.value, quantity.value, price.value);
  }

  method ReadTail(ghost b: seq<byte>, ghost v4: seq<Val>, t: seq<byte>, sku: seq<byte>, name: seq<byte>,
      quantity: nat, price: Money)
    returns (r: Read<LineItem>)
    requires ReadTo(LINE_FIELDS, b, 4, v4, t)
    requires v4 == [] + [Text(sku)] + [Text(name)] + [Num(quantity)] + [MoneyVal(price)]
    ensures Lift(DecodeFields(LINE_FIELDS, b), vs => Fields(vs)) == Lift(r, it => LineItemVal(it)) && !r.BadOrdinal?
  {
    ghost var fs := LINE_FIELDS;
    hide DecodeFields, ReadTo, MoneyVal;
    ReadNext(fs, b, 4, v4, t);
    if |t| < 2 {
      if |t| == 1 {
        ReadNext(fs, b, 5, v4 + [Num(FromLE(t[..1]))], t[1..]);
      }
      return Truncated;
    }
    OneByteBack(t[0]);
    assert t[..1] == [t[0]];
    ReadNext(fs, b, 5, v4 + [Num(t[0])], t[1..]);
    assert t[1..][1..] == t[2..];
    var it := LineItem(sku, name, quantity, price, t[0], t[1] != 0);
    ghost var vs := v4 + [Num(t[0])] + [Bit(t[1] != 0)];
    assert vs == LineItemVal(it).values;
    ReadEnd(fs, b, vs, t[2..]);
    r := Got(it, t[2..]);
  }

  lemma OneByteBack(b: byte)
    ensures FromLE([b]) == b
  {
    assert [b][1..] == [];
  }
}
