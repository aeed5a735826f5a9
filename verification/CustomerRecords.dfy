/** The Go customer record (examples/appdata/go/customer.go): two maps, a list of
    addresses, an optional text and an amount. */
module CustomerRecords {
  import opened Common
  import opened LittleEndian
  import opened Layout
  import opened Records
  import opened Blocks

  /** Everything a record holds; the score is its bits. */
  datatype Customer = Customer(
    customerID: int, email: seq<byte>, displayName: seq<byte>, age: byte, emailVerified: bool, fraudScore: int,
    loyaltyPoints: int, signupTS: int, avatar: seq<byte>, pin: Four, referral: Option<seq<byte>>, credit: Money,
    shipping: seq<Address>, addressBook: map<seq<byte>, Address>, wishlist: seq<seq<byte>>,
    preferences: map<seq<byte>, seq<byte>>)

  function CustomerFmt(i: nat): Fmt
    requires i < 16
  {
    match i
    case 0 => UInt(8)
    case 1 => Blob
    case 2 => Blob
    case 3 => UInt(1)
    case 4 => Flag
    case 5 => NumFmt(4, false)
    case 6 => NumFmt(4, false)
    case 7 => NumFmt(8, true)
    case 8 => Blob
    case 9 => Fixed(UInt(1), 4)
    case 10 => Optional(Blob)
    case 11 => MONEY
    case 12 => List(ADDRESS)
    case 13 => Dict(ADDRESS)
    case 14 => List(Blob)
    case _ => Dict(Blob)
  }

  /** What stands for the two maps. */
  datatype Maps = Maps(book: Val, prefs: Val)

  function CustomerVal(c: Customer, m: Maps, i: nat): Val
    requires i < 16
  {
    match i
    case 0 => Num(c.customerID)
    case 1 => Text(c.email)
    case 2 => Text(c.displayName)
    case 3 => Num(c.age)
    case 4 => Bit(c.emailVerified)
    case 5 => Num(c.fraudScore)
    case 6 => Num(c.loyaltyPoints)
    case 7 => Num(c.signupTS)
    case 8 => Text(c.avatar)
    case 9 => Many(ByteVals(c.pin))
    case 10 => OptVal(c.referral, TextVal)
    case 11 => MoneyVal(c.credit)
    case 12 => Many(Vals(c.shipping, AddressVal))
    case 13 => m.book
    case 14 => Many(Vals(c.wishlist, TextVal))
    case _ => m.prefs
  }

  function Formats(): (fs: seq<Fmt>)
    ensures |fs| == 16 && forall i | 0 <= i < 16 :: fs[i] == CustomerFmt(i)
  {
    seq(16, i requires 0 <= i < 16 => CustomerFmt(i))
  }

  function Values(c: Customer, m: Maps): (vs: seq<Val>)
    ensures |vs| == 16 && forall i | 0 <= i < 16 :: vs[i] == CustomerVal(c, m, i)
  {
    seq(16, i requires 0 <= i < 16 => CustomerVal(c, m, i))
  }

  const CUSTOMER := Record(Formats())

  /** An order for each of the maps. */
  datatype Orders = Orders(book: seq<seq<byte>>, prefs: seq<seq<byte>>)

  ghost predicate Orderly(c: Customer, o: Orders) { Lists(o.book, c.addressBook) && Lists(o.prefs, c.preferences) }

  predicate InOrder(c: Customer, o: Orders) {
    (forall k | k in o.book :: k in c.addressBook) && forall k | k in o.prefs :: k in c.preferences
  }

  function Listing(c: Customer, o: Orders): Maps
    requires InOrder(c, o)
  {
    Maps(Entries(o.book, Listed(c.addressBook, o.book, AddressVal)),
      Entries(o.prefs, Listed(c.preferences, o.prefs, TextVal)))
  }

  function Decoded(c: Customer): Maps {
    Maps(Mapping(Mapped(c.addressBook, AddressVal)), Mapping(Mapped(c.preferences, TextVal)))
  }

  function DecodedValues(c: Customer): seq<Val> { Values(c, Decoded(c)) }

  // ---- writing -------------------------------------------------------------

  lemma BookShaped(m: map<seq<byte>, Address>, keys: seq<seq<byte>>)
    requires Lists(keys, m)
    ensures (forall k | k in keys :: k in m) && Shaped(Dict(ADDRESS), Entries(keys, Listed(m, keys, AddressVal)))
  {
    hide Encode, EncodeEntries, Listed, AllDifferent, AddressVal;
    forall k | k in m ensures Shaped(ADDRESS, AddressVal(m[k])) { AddressShaped(m[k]); }
    DictListed(ADDRESS, m, keys, AddressVal);
  }

  lemma PrefsShaped(m: map<seq<byte>, seq<byte>>, keys: seq<seq<byte>>)
    requires Lists(keys, m)
    ensures (forall k | k in keys :: k in m) && Shaped(Dict(Blob), Entries(keys, Listed(m, keys, TextVal)))
  {
    hide Encode, EncodeEntries, Listed, AllDifferent;
    forall k | k in m ensures Shaped(Blob, TextVal(m[k])) { TextShaped(m[k]); }
    DictListed(Blob, m, keys, TextVal);
  }

  lemma AddressesShaped(xs: seq<Address>)
    ensures Shaped(List(ADDRESS), Many(Vals(xs, AddressVal)))
  {
    hide AddressVal;
    forall i | 0 <= i < |xs| ensures Shaped(ADDRESS, AddressVal(xs[i])) { AddressShaped(xs[i]); }
    ValsShaped(ADDRESS, xs, AddressVal);
    ManyShaped(ADDRESS, Vals(xs, AddressVal));
  }

  lemma FieldShaped(c: Customer, o: Orders, i: nat)
    requires i < 16 && Orderly(c, o)
    ensures InOrder(c, o) && Shaped(CustomerFmt(i), CustomerVal(c, Listing(c, o), i))
  {
    hide Vals, ByteVals, Lists, Listed, MoneyVal;
    BookShaped(c.addressBook, o.book);
    PrefsShaped(c.preferences, o.prefs);
    match i
    case 9 => BytesShaped(c.pin);
    case 10 => OptShaped(Blob, c.referral, TextVal);
    case 11 => MoneyShaped(c.credit);
    case 12 => AddressesShaped(c.shipping);
    case 14 => TextsShaped(c.wishlist);
    case _ =>
  }

  lemma RecordShaped(c: Customer, o: Orders)
    requires Orderly(c, o)
    ensures InOrder(c, o) && forall j | 0 <= j < 16 :: Shaped(Formats()[j], Values(c, Listing(c, o))[j])
  {
    hide Shaped, CustomerFmt, CustomerVal, Formats, Values, Orderly, InOrder, Listing;
    FieldShaped(c, o, 0);
    forall j | 0 <= j < 16 ensures Shaped(Formats()[j], Values(c, Listing(c, o))[j]) { FieldShaped(c, o, j); }
  }

  /** The first `i` fields are out. */
  ghost predicate Out(c: Customer, m: Maps, i: nat, buf: seq<byte>) { WroteFields(Formats(), Values(c, m), i, buf) }

  lemma FirstOut(c: Customer, o: Orders)
    requires Orderly(c, o)
    ensures InOrder(c, o) && Out(c, Listing(c, o), 0, [])
  {
    hide Shaped, WroteFields, Orderly, InOrder, Listing;
    RecordShaped(c, o);
    StartWriting(Formats(), Values(c, Listing(c, o)));
  }

  lemma NextOut(c: Customer, m: Maps, i: nat, buf: seq<byte>)
    requires i < 16 && Out(c, m, i, buf)
    ensures Shaped(CustomerFmt(i), CustomerVal(c, m, i))
    ensures Out(c, m, i + 1, buf + Encode(CustomerFmt(i), CustomerVal(c, m, i)))
  {
    hide Encode, Shaped, WroteFields, CustomerFmt, CustomerVal;
    Next(Formats(), Values(c, m), i, buf);
  }

  lemma AllOut(c: Customer, m: Maps, buf: seq<byte>)
    requires Out(c, m, 16, buf)
    ensures Shaped(CUSTOMER, Fields(Values(c, m))) && buf == Encode(CUSTOMER, Fields(Values(c, m)))
  {
    hide Encode, Shaped, WroteFields, Formats, Values;
    Written(Formats(), Values(c, m), buf);
  }

  /** Up to the sign-up time. */
  method AppendHead(c: Customer, ghost m: Maps, buf0: seq<byte>) returns (buf: seq<byte>)
    requires Out(c, m, 0, buf0)
    ensures Out(c, m, 8, buf)
  {
    hide Encode, Out, Shaped, Vals, ByteVals, NumFmt, MoneyVal;
    buf := buf0;
    NextOut(c, m, 0, buf);
    buf := AppendUInt(buf, c.customerID, 8);
    NextOut(c, m, 1, buf);
    buf := AppendLenStr(buf, c.email);
    NextOut(c, m, 2, buf);
    buf := AppendLenStr(buf, c.displayName);
    NextOut(c, m, 3, buf);
    OneByte(c.age);
    buf := buf + [c.age];
    NextOut(c, m, 4, buf);
    buf := AppendFlag(buf, c.emailVerified);
    NextOut(c, m, 5, buf);
    buf := AppendNum(buf, c.fraudScore, 4, false);
    NextOut(c, m, 6, buf);
    buf := AppendNum(buf, c.loyaltyPoints, 4, false);
    NextOut(c, m, 7, buf);
    buf := AppendNum(buf, c.signupTS, 8, true);
  }

  /** The others, each map in the order of its keys. */
  method AppendLast(c: Customer, o: Orders, buf0: seq<byte>) returns (buf: seq<byte>)
    requires Orderly(c, o) && InOrder(c, o) && Out(c, Listing(c, o), 8, buf0)
    ensures Shaped(CUSTOMER, Fields(Values(c, Listing(c, o)))) &&
            buf == Encode(CUSTOMER, Fields(Values(c, Listing(c, o))))
  {
    hide Encode, Out, Shaped, Vals, ByteVals, NumFmt, MoneyVal, AddressVal, Lists, Listed;
    ghost var m := Listing(c, o);
    buf := buf0;
    NextOut(c, m, 8, buf);
    buf := AppendLenStr(buf, c.avatar);
    NextOut(c, m, 9, buf);
    FourBytes(c.pin);
    buf := buf + c.pin;
    NextOut(c, m, 10, buf);
    buf := AppendOptText(buf, c.referral);
    NextOut(c, m, 11, buf);
    buf := AppendMoney(buf, c.credit);
    NextOut(c, m, 12, buf);
    buf := AppendAddresses(buf, c.shipping);
    NextOut(c, m, 13, buf);
    buf := AppendAddressMap(buf, c.addressBook, o.book);
    NextOut(c, m, 14, buf);
    buf := AppendTexts(buf, c.wishlist);
    NextOut(c, m, 15, buf);
    buf := AppendTextMap(buf, c.preferences, o.prefs);
    AllOut(c, m, buf);
  }

  // ---- reading -------------------------------------------------------------

  /** The first values are those a decoder gives for the record. */
  ghost predicate Holds(vs: seq<Val>, c: Customer, to: nat) {
    |vs| == 16 && to <= 16 && forall i | 0 <= i < to :: vs[i] == CustomerVal(c, Decoded(c), i)
  }

  const BLANK := Customer(0, [], [], 0, false, 0, 0, 0, [], [0, 0, 0, 0], None, Money([], 0), [], map[], [], map[])

  /** The identity and the two names. */
  method ReadHead(b: seq<byte>) returns (v: Verdict, c: Customer, t: seq<byte>, ghost vs: seq<Val>)
    ensures !v.UnknownOrdinal? && (v.Short? ==> DecodeFields(Formats(), b) == Truncated)
    ensures v.Done? ==> Filled(Formats(), b, vs, 3, t) && Holds(vs, c, 3)
  {
    hide Decode, DecodeFields, Filled, Vals, ByteVals, NumFmt, Formats, Values, Decoded;
    c, t, v, vs := BLANK, b, Short, Values(BLANK, Maps(Nothing, Nothing));
    FillStart(Formats(), b, vs);
    FillFails(Formats(), b, vs, 0, t);
    var id := ReadUInt(t, 8);
    if !id.Got? { return; }
    vs := Fill(Formats(), b, vs, 0, t, Num(id.value), id.rest);
    FillFails(Formats(), b, vs, 1, id.rest);
    var email := ReadLenStr(id.rest);
    if !email.Got? { return; }
    vs := Fill(Formats(), b, vs, 1, id.rest, Text(email.value), email.rest);
    FillFails(Formats(), b, vs, 2, email.rest);
    var name := ReadLenStr(email.rest);
    if !name.Got? { return; }
    vs := Fill(Formats(), b, vs, 2, email.rest, Text(name.value), name.rest);
    c := c.(customerID := id.value, email := email.value, displayName := name.value);
    t, v := name.rest, Done;
  }

  /** Age and flag behind one check. */
  method ReadPair(ghost b: seq<byte>, c0: Customer, t0: seq<byte>, ghost vs0: seq<Val>)
    returns (v: Verdict, c: Customer, t: seq<byte>, ghost vs: seq<Val>)
    requires Filled(Formats(), b, vs0, 3, t0) && Holds(vs0, c0, 3)
    ensures !v.UnknownOrdinal? && (v.Short? ==> DecodeFields(Formats(), b) == Truncated)
    ensures v.Done? ==> Filled(Formats(), b, vs, 5, t) && Holds(vs, c, 5)
  {
    hide Decode, DecodeFields, Filled, Vals, ByteVals, NumFmt, Formats, Decoded;
    c, t, v, vs := c0, t0, Short, vs0;
    if |t| < 2 {
      PairShort(b, vs, t);
      return;
    }
    ByteFieldAt(t, 0);
    FlagAt(t, 1);
    assert t[0..] == t;
    vs := Fill(Formats(), b, vs, 3, t, Num(t[0]), t[1..]);
    vs := Fill(Formats(), b, vs, 4, t[1..], Bit(t[1] != 0), t[2..]);
    c := c.(age := t[0], emailVerified := t[1] != 0);
    t, v := t[2..], Done;
  }

  lemma PairShort(b: seq<byte>, vs: seq<Val>, t: seq<byte>)
    requires Filled(Formats(), b, vs, 3, t) && |t| < 2
    ensures DecodeFields(Formats(), b) == Truncated
  {
    hide Filled, Formats, DecodeFields, RunWidth;
    RunNone(Formats(), 5);
    RunStep(Formats(), 4, 5);
    RunStep(Formats(), 3, 5);
    FillShort(Formats(), b, vs, 3, t, 2);
  }

  lemma ScoresShort(b: seq<byte>, vs: seq<Val>, t: seq<byte>)
    requires Filled(Formats(), b, vs, 5, t) && |t| < 16
    ensures DecodeFields(Formats(), b) == Truncated
  {
    hide Filled, Formats, DecodeFields, RunWidth;
    RunNone(Formats(), 8);
    RunStep(Formats(), 7, 8);
    RunStep(Formats(), 6, 8);
    RunStep(Formats(), 5, 8);
    FillShort(Formats(), b, vs, 5, t, 3);
  }

  /** Sixteen bytes behind one check. */
  method ReadScores(ghost b: seq<byte>, c0: Customer, t0: seq<byte>, ghost vs0: seq<Val>)
    returns (v: Verdict, c: Customer, t: seq<byte>, ghost vs: seq<Val>)
    requires Filled(Formats(), b, vs0, 5, t0) && Holds(vs0, c0, 5)
    ensures !v.UnknownOrdinal? && (v.Short? ==> DecodeFields(Formats(), b) == Truncated)
    ensures v.Done? ==> Filled(Formats(), b, vs, 8, t) && Holds(vs, c, 8)
  {
    hide Decode, DecodeFields, Filled, Vals, ByteVals, NumFmt, Formats, Decoded;
    c, t, v, vs := c0, t0, Short, vs0;
    if |t| < 16 {
      ScoresShort(b, vs, t);
      return;
    }
    assert t[0..] == t;
    var fraud := NumAt(t, 0, 4, false);
    vs := Fill(Formats(), b, vs, 5, t, Num(fraud), t[4..]);
    var points := NumAt(t, 4, 4, false);
    vs := Fill(Formats(), b, vs, 6, t[4..], Num(points), t[8..]);
    var signup := NumAt(t, 8, 8, true);
    vs := Fill(Formats(), b, vs, 7, t[8..], Num(signup), t[16..]);
    c := c.(fraudScore := fraud, loyaltyPoints := points, signupTS := signup);
    t, v := t[16..], Done;
  }

  /** The avatar, the pin and the referral. */
  method ReadMiddle(ghost b: seq<byte>, c0: Customer, t0: seq<byte>, ghost vs0: seq<Val>)
    returns (v: Verdict, c: Customer, t: seq<byte>, ghost vs: seq<Val>)
    requires Filled(Formats(), b, vs0, 8, t0) && Holds(vs0, c0, 8)
    ensures !v.UnknownOrdinal? && (v.Short? ==> DecodeFields(Formats(), b) == Truncated)
    ensures v.Done? ==> Filled(Formats(), b, vs, 11, t) && Holds(vs, c, 11)
  {
    hide Decode, DecodeFields, Filled, Vals, ByteVals, NumFmt, Formats, Decoded;
    c, t, v, vs := c0, t0, Short, vs0;
    FillFails(Formats(), b, vs, 8, t);
    var avatar := ReadLenStr(t);
    if !avatar.Got? { return; }
    vs := Fill(Formats(), b, vs, 8, t, Text(avatar.value), avatar.rest);
    t := avatar.rest;
    FillFails(Formats(), b, vs, 9, t);
    ShortFour(t);
    if |t| < 4 { return; }
    FourDecode(t);
    vs := Fill(Formats(), b, vs, 9, t, Many(ByteVals(t[..4])), t[4..]);
    FillFails(Formats(), b, vs, 10, t[4..]);
    var referral := ReadOptText(t[4..]);
    if !referral.Got? { return; }
    vs := Fill(Formats(), b, vs, 10, t[4..], OptVal(referral.value, TextVal), referral.rest);
    c := c.(avatar := avatar.value, pin := t[..4], referral := referral.value);
    t, v := referral.rest, Done;
  }

  /** The amount, the addresses and the address book. */
  method ReadAddressesPart(ghost b: seq<byte>, c0: Customer, t0: seq<byte>, ghost vs0: seq<Val>)
    returns (v: Verdict, c: Customer, t: seq<byte>, ghost vs: seq<Val>)
    requires Filled(Formats(), b, vs0, 11, t0) && Holds(vs0, c0, 11)
    ensures !v.UnknownOrdinal? && (v.Short? ==> DecodeFields(Formats(), b) == Truncated)
    ensures v.Done? ==> Filled(Formats(), b, vs, 14, t) && Holds(vs, c, 14)
  {
    hide Decode, DecodeFields, Filled, Vals, ByteVals, NumFmt, Formats, MoneyVal, AddressVal, Mapped;
    c, t, v, vs := c0, t0, Short, vs0;
    FillFails(Formats(), b, vs, 11, t);
    var credit := ReadMoney(t);
    if !credit.Got? { return; }
    vs := Fill(Formats(), b, vs, 11, t, MoneyVal(credit.value), credit.rest);
    FillFails(Formats(), b, vs, 12, credit.rest);
    var shipping := ReadAddresses(credit.rest);
    if !shipping.Got? { return; }
    vs := Fill(Formats(), b, vs, 12, credit.rest, Many(Vals(shipping.value, AddressVal)), shipping.rest);
    FillFails(Formats(), b, vs, 13, shipping.rest);
    var book := ReadAddressMap(shipping.rest);
    if !book.Got? { return; }
    vs := Fill(Formats(), b, vs, 13, shipping.rest, Mapping(Mapped(book.value, AddressVal)), book.rest);
    c := c.(credit := credit.value, shipping := shipping.value, addressBook := book.value);
    t, v := book.rest, Done;
  }

  /** The wishlist and the preferences. */
  method ReadLast(b: seq<byte>, c0: Customer, t0: seq<byte>, ghost vs0: seq<Val>) returns (v: Verdict, c: Customer)
    requires Filled(Formats(), b, vs0, 14, t0) && Holds(vs0, c0, 14)
    ensures !v.UnknownOrdinal? && (v.Short? ==> DecodeFields(Formats(), b) == Truncated)
    ensures v.Done? ==> Decode(CUSTOMER, b).Got? && Decode(CUSTOMER, b).value == Fields(DecodedValues(c))
  {
    hide Decode, DecodeFields, Filled, Vals, ByteVals, NumFmt, Formats, DecodedValues, MoneyVal, AddressVal, Mapped;
    c, v := c0, Short;
    ghost var vs := vs0;
    FillFails(Formats(), b, vs, 14, t0);
    var wishes := ReadTexts(t0);
    if !wishes.Got? { return; }
    vs := Fill(Formats(), b, vs, 14, t0, Many(Vals(wishes.value, TextVal)), wishes.rest);
    FillFails(Formats(), b, vs, 15, wishes.rest);
    var prefs := ReadTextMap(wishes.rest);
    if !prefs.Got? { return; }
    vs := Fill(Formats(), b, vs, 15, wishes.rest, Mapping(Mapped(prefs.value, TextVal)), prefs.rest);
    c, v := c.(wishlist := wishes.value, preferences := prefs.value), Done;
    AllHeld(vs, c);
    FillEnd(Formats(), b, vs, prefs.rest);
  }

  lemma AllHeld(vs: seq<Val>, c: Customer)
    requires Holds(vs, c, 16)
    ensures vs == DecodedValues(c)
  {
  }

  /** Reading the fields, one block after the other. */
  method DecodeCustomer(b: seq<byte>) returns (v: Verdict, c: Customer)
    ensures !v.UnknownOrdinal? && (v.Short? ==> Decode(CUSTOMER, b) == Truncated)
    ensures v.Done? ==> Decode(CUSTOMER, b).Got? && Decode(CUSTOMER, b).value == Fields(DecodedValues(c))
  {
    RecordDecode(Formats(), b);
    hide Decode, DecodeFields, Filled, Formats, Values, Holds, DecodedValues;
    var t;
    ghost var vs;
    v, c, t, vs := ReadHead(b);
    if !v.Done? { return; }
    v, c, t, vs := ReadPair(b, c, t, vs);
    if !v.Done? { return; }
    v, c, t, vs := ReadScores(b, c, t, vs);
    if !v.Done? { return; }
    v, c, t, vs := ReadMiddle(b, c, t, vs);
    if !v.Done? { return; }
    v, c, t, vs := ReadAddressesPart(b, c, t, vs);
    if !v.Done? { return; }
    v, c := ReadLast(b, c, t, vs);
  }

  // ---- the record ----------------------------------------------------------

  class CustomerRecord {
    var customerID: int
    var email: seq<byte>
    var displayName: seq<byte>
    var age: byte
    var emailVerified: bool
    var fraudScore: int
    var loyaltyPoints: int
    var signupTS: int
    var avatar: seq<byte>
    var pin: Four
    var referral: Option<seq<byte>>
    var credit: Money
    var shipping: seq<Address>
    var addressBook: map<seq<byte>, Address>
    var wishlist: seq<seq<byte>>
    var preferences: map<seq<byte>, seq<byte>>

    constructor () {
      customerID, email, displayName, age, emailVerified := 0, [], [], 0, false;
      fraudScore, loyaltyPoints, signupTS, avatar, pin, referral := 0, 0, 0, [], [0, 0, 0, 0], None;
      credit, shipping, addressBook, wishlist, preferences := Money([], 0), [], map[], [], map[];
    }

    function View(): Customer
      reads this
    {
      Customer(customerID, email, displayName, age, emailVerified, fraudScore, loyaltyPoints, signupTS, avatar, pin,
               referral, credit, shipping, addressBook, wishlist, preferences)
    }

    /** The bytes of the record's format, each map in the order it gave. */
    method MarshalBinary() returns (out: seq<byte>, ghost o: Orders)
      ensures Orderly(View(), o) && InOrder(View(), o)
      ensures Shaped(CUSTOMER, Fields(Values(View(), Listing(View(), o))))
      ensures out == Encode(CUSTOMER, Fields(Values(View(), Listing(View(), o))))
    {
      hide Encode, Shaped, Out, Values, Formats, Listed, Lists;
      var c := View();
      var book := MapKeys(addressBook);
      var prefs := MapKeys(preferences);
      o := Orders(book, prefs);
      FirstOut(c, o);
      out := AppendHead(c, Listing(c, o), []);
      out := AppendLast(c, Orders(book, prefs), out);
    }

    method SetFirst(c: Customer)
      modifies `customerID, `email, `displayName, `age, `emailVerified, `fraudScore, `loyaltyPoints, `signupTS
      ensures customerID == c.customerID && email == c.email && displayName == c.displayName && age == c.age
      ensures emailVerified == c.emailVerified && fraudScore == c.fraudScore && loyaltyPoints == c.loyaltyPoints
      ensures signupTS == c.signupTS
    {
      customerID, email, displayName, age := c.customerID, c.email, c.displayName, c.age;
      emailVerified, fraudScore, loyaltyPoints, signupTS := c.emailVerified, c.fraudScore, c.loyaltyPoints, c.signupTS;
    }

    method SetLast(c: Customer)
      modifies `avatar, `pin, `referral, `credit, `shipping, `addressBook, `wishlist, `preferences
      ensures avatar == c.avatar && pin == c.pin && referral == c.referral && credit == c.credit
      ensures shipping == c.shipping && addressBook == c.addressBook && wishlist == c.wishlist
      ensures preferences == c.preferences
    {
      avatar, pin, referral, credit := c.avatar, c.pin, c.referral, c.credit;
      shipping, addressBook, wishlist, preferences := c.shipping, c.addressBook, c.wishlist, c.preferences;
    }

    /** Every input: the record is filled and Done, or the input was short, just as the
        format says. */
    method UnmarshalBinary(b: seq<byte>) returns (v: Verdict)
      modifies this
      ensures !v.UnknownOrdinal? && (v.Short? ==> Decode(CUSTOMER, b) == Truncated)
      ensures v.Done? ==> Decode(CUSTOMER, b).Got? && Decode(CUSTOMER, b).value == Fields(DecodedValues(View()))
    {
      hide Decode, DecodedValues, Formats;
      var c;
      v, c := DecodeCustomer(b);
      if v.Done? {
        SetFirst(c);
        SetLast(c);
        assert View() == c;
      }
    }
  }

  // ---- there and back ------------------------------------------------------

  lemma BookMeaning(m: map<seq<byte>, Address>, keys: seq<seq<byte>>)
    requires Lists(keys, m)
    ensures (forall k | k in keys :: k in m) &&
            Meaning(Entries(keys, Listed(m, keys, AddressVal))) == Mapping(Mapped(m, AddressVal))
  {
    hide AddressVal, Meaning;
    forall k | k in m ensures Meaning(AddressVal(m[k])) == AddressVal(m[k]) { AddressMeaning(m[k]); }
    MapMeaning(m, keys, AddressVal);
  }

  lemma PrefsMeaning(m: map<seq<byte>, seq<byte>>, keys: seq<seq<byte>>)
    requires Lists(keys, m)
    ensures (forall k | k in keys :: k in m) &&
            Meaning(Entries(keys, Listed(m, keys, TextVal))) == Mapping(Mapped(m, TextVal))
  {
    MapMeaning(m, keys, TextVal);
  }

  lemma FieldMeaning(c: Customer, o: Orders, i: nat)
    requires i < 16 && Orderly(c, o) && InOrder(c, o)
    ensures Meaning(CustomerVal(c, Listing(c, o), i)) == CustomerVal(c, Decoded(c), i)
  {
    hide Vals, ByteVals, Lists, Listed, Mapped, MoneyVal, AddressVal;
    match i
    case 9 => FourMeaning(c.pin);
    case 11 => MoneyMeaning(c.credit);
    case 12 => AddressesMeaning(c.shipping);
    case 13 => BookMeaning(c.addressBook, o.book);
    case 14 => TextsMeaning(c.wishlist);
    case 15 => PrefsMeaning(c.preferences, o.prefs);
    case _ =>
  }

  lemma SameField(c: Customer, d: Customer, i: nat)
    requires i < 16 && DecodedValues(c) == DecodedValues(d)
    ensures CustomerVal(c, Decoded(c), i) == CustomerVal(d, Decoded(d), i)
  {
    assert DecodedValues(c)[i] == DecodedValues(d)[i];
  }

  lemma SameScalars(c: Customer, d: Customer)
    requires DecodedValues(c) == DecodedValues(d)
    ensures c.customerID == d.customerID && c.email == d.email && c.displayName == d.displayName && c.age == d.age
    ensures c.emailVerified == d.emailVerified && c.fraudScore == d.fraudScore && c.loyaltyPoints == d.loyaltyPoints
    ensures c.signupTS == d.signupTS && c.avatar == d.avatar
  {
    hide DecodedValues, Decoded;
    SameField(c, d, 0);
    SameField(c, d, 1);
    SameField(c, d, 2);
    SameField(c, d, 3);
    SameField(c, d, 4);
    SameField(c, d, 5);
    SameField(c, d, 6);
    SameField(c, d, 7);
    SameField(c, d, 8);
  }

  lemma SameMaps(c: Customer, d: Customer)
    requires DecodedValues(c) == DecodedValues(d)
    ensures c.addressBook == d.addressBook && c.preferences == d.preferences
  {
    hide DecodedValues, Mapped, AddressVal;
    SameField(c, d, 13);
    forall k | k in c.addressBook && k in d.addressBook && AddressVal(c.addressBook[k]) == AddressVal(d.addressBook[k])
      ensures c.addressBook[k] == d.addressBook[k]
    {
      SameAddress(c.addressBook[k], d.addressBook[k]);
    }
    SameMap(c.addressBook, d.addressBook, AddressVal);
    SameField(c, d, 15);
    SameMap(c.preferences, d.preferences, TextVal);
  }

  /** The values a decoder gives determine the record. */
  lemma SameCustomer(c: Customer, d: Customer)
    requires DecodedValues(c) == DecodedValues(d)
    ensures c == d
  {
    hide DecodedValues, Decoded, Vals, ByteVals, MoneyVal, AddressVal;
    SameScalars(c, d);
    SameMaps(c, d);
    SameField(c, d, 9);
    SameByteVals(c.pin, d.pin);
    SameField(c, d, 10);
    SameField(c, d, 11);
    SameMoney(c.credit, d.credit);
    SameField(c, d, 12);
    SameAddresses(c.shipping, d.shipping);
    SameField(c, d, 14);
    SameTexts(c.wishlist, d.wishlist);
  }

  /** Numbers in the range of their width, lengths below 2^32, for every order of the maps. */
  ghost predicate InLimits(c: Customer) {
    forall o | Orderly(c, o) ::
      InOrder(c, o) && Shaped(CUSTOMER, Fields(Values(c, Listing(c, o)))) &&
        Fits(CUSTOMER, Fields(Values(c, Listing(c, o))))
  }

  lemma RecordComesBack(c: Customer, o: Orders, n: nat)
    requires InLimits(c) && Orderly(c, o)
    ensures InOrder(c, o)
    ensures var vs := Values(c, Listing(c, o));
            && Shaped(CUSTOMER, Fields(vs)) && |Encode(CUSTOMER, Fields(vs))| > 0
            && Decode(CUSTOMER, Encode(CUSTOMER, Fields(vs))) == Got(Fields(DecodedValues(c)), [])
            && (n < |Encode(CUSTOMER, Fields(vs))| ==> Decode(CUSTOMER, Encode(CUSTOMER, Fields(vs))[..n]) == Truncated)
  {
    assert InOrder(c, o);
    var vs := Values(c, Listing(c, o));
    assert Shaped(CUSTOMER, Fields(vs)) && Fits(CUSTOMER, Fields(vs));
    hide Encode, Decode, Shaped, Fits, InLimits, Orderly, InOrder, Listing, CustomerVal, Decoded;
    forall i: nat | i < 16 ensures Meaning(vs[i]) == DecodedValues(c)[i] { FieldMeaning(c, o, i); }
    RecordNotEmpty(Formats(), vs);
    RecordBack(Formats(), vs, DecodedValues(c), n);
  }

  /** Writing a record and reading it back gives the same record, whatever the order of
      its maps; and every strict prefix of the bytes is short. */
  method WriteAndRead(rec: CustomerRecord, cut: nat) returns (back: CustomerRecord, v: Verdict, w: Verdict)
    requires InLimits(rec.View())
    ensures v == Done && fresh(back) && back.View() == rec.View()
    ensures w == Short
  {
    ghost var c := rec.View();
    var out;
    ghost var o;
    out, o := rec.MarshalBinary();
    hide Encode, Decode, Shaped, Values, Formats, InLimits, Orderly, InOrder, Listing, DecodedValues;
    RecordComesBack(c, o, 0);
    var n := cut % |out|;
    RecordComesBack(c, o, n);
    back := new CustomerRecord();
    v := back.UnmarshalBinary(out);
    SameCustomer(back.View(), c);
    var scratch := new CustomerRecord();
    w := scratch.UnmarshalBinary(out[..n]);
  }
}
