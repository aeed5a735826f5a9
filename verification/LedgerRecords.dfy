/** The Go ledger entry (examples/appdata/go/ledger.go): two signed integers of 128 bits
    and an optional text whose presence byte is checked together with a flag. */
module LedgerRecords {
  import opened Common
  import opened LittleEndian
  import opened Layout
  import opened Records
  import opened Blocks
  import Int128

  /** What an entry says: a nil amount or balance is zero. */
  datatype Ledger = Ledger(
    entryID: int, blockNumber: int, blockTime: int, txHash: seq<byte>, account: seq<byte>, asset: seq<byte>,
    amount: int, balance: int, confirmed: bool, memo: Option<seq<byte>>)

  function LedgerFmt(i: nat): Fmt
    requires i < 10
  {
    match i
    case 0 => NumFmt(8, false)
    case 1 => NumFmt(8, false)
    case 2 => NumFmt(8, true)
    case 3 => Blob
    case 4 => Blob
    case 5 => Blob
    case 6 => SInt(16)
    case 7 => SInt(16)
    case 8 => Flag
    case _ => Optional(Blob)
  }

  function LedgerVal(l: Ledger, i: nat): Val
    requires i < 10
  {
    match i
    case 0 => Num(l.entryID)
    case 1 => Num(l.blockNumber)
    case 2 => Num(l.blockTime)
    case 3 => Text(l.txHash)
    case 4 => Text(l.account)
    case 5 => Text(l.asset)
    case 6 => Num(l.amount)
    case 7 => Num(l.balance)
    case 8 => Bit(l.confirmed)
    case _ => OptVal(l.memo, TextVal)
  }

  function Formats(): (fs: seq<Fmt>)
    ensures |fs| == 10 && forall i | 0 <= i < 10 :: fs[i] == LedgerFmt(i)
  {
    seq(10, i requires 0 <= i < 10 => LedgerFmt(i))
  }

  function Values(l: Ledger): (vs: seq<Val>)
    ensures |vs| == 10 && forall i | 0 <= i < 10 :: vs[i] == LedgerVal(l, i)
  {
    seq(10, i requires 0 <= i < 10 => LedgerVal(l, i))
  }

  const LEDGER := Record(Formats())

  // ---- writing -------------------------------------------------------------

  lemma RecordShaped(l: Ledger)
    ensures forall j | 0 <= j < 10 :: Shaped(Formats()[j], Values(l)[j])
  {
    OptShaped(Blob, l.memo, TextVal);
    forall j: nat | j < 10 ensures Shaped(LedgerFmt(j), LedgerVal(l, j)) {
    }
  }

  /** The first `i` fields are out. */
  ghost predicate Out(l: Ledger, i: nat, buf: seq<byte>) { WroteFields(Formats(), Values(l), i, buf) }

  lemma FirstOut(l: Ledger)
    ensures Out(l, 0, [])
  {
    hide Shaped, WroteFields;
    RecordShaped(l);
    StartWriting(Formats(), Values(l));
  }

  lemma NextOut(l: Ledger, i: nat, buf: seq<byte>)
    requires i < 10 && Out(l, i, buf)
    ensures Shaped(LedgerFmt(i), LedgerVal(l, i)) && Out(l, i + 1, buf + Encode(LedgerFmt(i), LedgerVal(l, i)))
  {
    hide Encode, Shaped, WroteFields, LedgerFmt, LedgerVal;
    Next(Formats(), Values(l), i, buf);
  }

  lemma AllOut(l: Ledger, buf: seq<byte>)
    requires Out(l, 10, buf)
    ensures Shaped(LEDGER, Fields(Values(l))) && buf == Encode(LEDGER, Fields(Values(l)))
  {
    hide Encode, Shaped, WroteFields, Formats, Values;
    Written(Formats(), Values(l), buf);
  }

  lemma Signed16(n: int)
    ensures Shaped(SInt(16), Num(n)) && Encode(SInt(16), Num(n)) == Int128.Bytes128(n)
  {
    Bytes128Is(n, true);
  }

  /** Writing the fields; nil integers are written as zeros. */
  method EncodeLedger(l: Ledger, amount: Option<int>, balance: Option<int>) returns (buf: seq<byte>)
    requires l.amount == OrZero(amount) && l.balance == OrZero(balance)
    ensures Shaped(LEDGER, Fields(Values(l))) && buf == Encode(LEDGER, Fields(Values(l)))
  {
    hide Encode, Out, Shaped, NumFmt;
    buf := [];
    FirstOut(l);
    NextOut(l, 0, buf);
    buf := AppendNum(buf, l.entryID, 8, false);
    NextOut(l, 1, buf);
    buf := AppendNum(buf, l.blockNumber, 8, false);
    NextOut(l, 2, buf);
    buf := AppendNum(buf, l.blockTime, 8, true);
    NextOut(l, 3, buf);
    buf := AppendLenStr(buf, l.txHash);
    NextOut(l, 4, buf);
    buf := AppendLenStr(buf, l.account);
    NextOut(l, 5, buf);
    buf := AppendLenStr(buf, l.asset);
    NextOut(l, 6, buf);
    Signed16(l.amount);
    buf := Int128.AppendInt128(buf, amount);
    NextOut(l, 7, buf);
    Signed16(l.balance);
    buf := Int128.AppendInt128(buf, balance);
    NextOut(l, 8, buf);
    buf := AppendFlag(buf, l.confirmed);
    NextOut(l, 9, buf);
    buf := AppendOptText(buf, l.memo);
    AllOut(l, buf);
  }

  // ---- reading -------------------------------------------------------------

  ghost predicate Holds(vs: seq<Val>, l: Ledger, to: nat) {
    |vs| == 10 && to <= 10 && forall i | 0 <= i < to :: vs[i] == LedgerVal(l, i)
  }

  const BLANK := Ledger(0, 0, 0, [], [], [], 0, 0, false, None)

  lemma HeadShort(b: seq<byte>, vs: seq<Val>, t: seq<byte>)
    requires Filled(Formats(), b, vs, 0, t) && |t| < 24
    ensures DecodeFields(Formats(), b) == Truncated
  {
    hide Filled, Formats, DecodeFields, RunWidth;
    RunNone(Formats(), 3);
    RunStep(Formats(), 2, 3);
    RunStep(Formats(), 1, 3);
    RunStep(Formats(), 0, 3);
    FillShort(Formats(), b, vs, 0, t, 3);
  }

  /** Three numbers behind one check. */
  method ReadHead(b: seq<byte>) returns (v: Verdict, l: Ledger, t: seq<byte>, ghost vs: seq<Val>)
    ensures !v.UnknownOrdinal? && (v.Short? ==> DecodeFields(Formats(), b) == Truncated)
    ensures v.Done? ==> Filled(Formats(), b, vs, 3, t) && Holds(vs, l, 3)
  {
    hide Decode, DecodeFields, Filled, NumFmt, Formats, Values;
    l, t, v, vs := BLANK, b, Short, Values(BLANK);
    FillStart(Formats(), b, vs);
    if |b| < 24 {
      HeadShort(b, vs, b);
      return;
    }
    assert b[0..] == b;
    var entry := NumAt(b, 0, 8, false);
    vs := Fill(Formats(), b, vs, 0, b, Num(entry), b[8..]);
    var block := NumAt(b, 8, 8, false);
    vs := Fill(Formats(), b, vs, 1, b[8..], Num(block), b[16..]);
    var time := NumAt(b, 16, 8, true);
    vs := Fill(Formats(), b, vs, 2, b[16..], Num(time), b[24..]);
    l := l.(entryID := entry, blockNumber := block, blockTime := time);
    t, v := b[24..], Done;
  }

  /** One string, as field `i`. */
  method ReadTextAt(ghost b: seq<byte>, ghost vs: seq<Val>, ghost i: nat, t: seq<byte>)
    returns (r: Read<seq<byte>>, ghost ws: seq<Val>)
    requires |vs| == 10 && 3 <= i < 6 && Filled(Formats(), b, vs, i, t)
    ensures !r.BadOrdinal? && (r.Truncated? ==> DecodeFields(Formats(), b) == Truncated)
    ensures r.Got? ==> ws == vs[i := Text(r.value)] && Filled(Formats(), b, ws, i + 1, r.rest)
  {
    assert Formats()[i] == Blob;
    hide Decode, DecodeFields, Filled, Formats;
    FillFails(Formats(), b, vs, i, t);
    r := ReadLenStr(t);
    ws := vs;
    if r.Got? { ws := Fill(Formats(), b, vs, i, t, Text(r.value), r.rest); }
  }

  /** The hash and the two names. */
  method ReadNames(ghost b: seq<byte>, l0: Ledger, t0: seq<byte>, ghost vs0: seq<Val>)
    returns (v: Verdict, l: Ledger, t: seq<byte>, ghost vs: seq<Val>)
    requires Filled(Formats(), b, vs0, 3, t0) && Holds(vs0, l0, 3)
    ensures !v.UnknownOrdinal? && (v.Short? ==> DecodeFields(Formats(), b) == Truncated)
    ensures v.Done? ==> Filled(Formats(), b, vs, 6, t) && Holds(vs, l, 6)
  {
    hide Decode, DecodeFields, Filled, Formats;
    l, t, v, vs := l0, t0, Short, vs0;
    var hash, account, asset;
    hash, vs := ReadTextAt(b, vs, 3, t);
    if !hash.Got? { return; }
    account, vs := ReadTextAt(b, vs, 4, hash.rest);
    if !account.Got? { return; }
    asset, vs := ReadTextAt(b, vs, 5, account.rest);
    if !asset.Got? { return; }
    l := l.(txHash := hash.value, account := account.value, asset := asset.value);
    t, v := asset.rest, Done;
  }

  lemma EndShort(b: seq<byte>, vs: seq<Val>, t: seq<byte>)
    requires Filled(Formats(), b, vs, 8, t) && |t| < 2
    ensures DecodeFields(Formats(), b) == Truncated
  {
    hide Filled, Formats, DecodeFields, RunWidth;
    RunNone(Formats(), 9);
    RunStep(Formats(), 8, 9);
    FillShort(Formats(), b, vs, 8, t, 1);
  }

  /** The two big integers. */
  method ReadBig(ghost b: seq<byte>, l0: Ledger, t0: seq<byte>, ghost vs0: seq<Val>)
    returns (v: Verdict, l: Ledger, t: seq<byte>, ghost vs: seq<Val>)
    requires Filled(Formats(), b, vs0, 6, t0) && Holds(vs0, l0, 6)
    ensures !v.UnknownOrdinal? && (v.Short? ==> DecodeFields(Formats(), b) == Truncated)
    ensures v.Done? ==> Filled(Formats(), b, vs, 8, t) && Holds(vs, l, 8)
  {
    hide Decode, DecodeFields, Filled, NumFmt, Formats, Int128.Normalize;
    l, t, v, vs := l0, t0, Short, vs0;
    FillFails(Formats(), b, vs, 6, t);
    var amount := ReadInt128Of(t);
    if !amount.Got? { return; }
    vs := Fill(Formats(), b, vs, 6, t, Num(amount.value), amount.rest);
    FillFails(Formats(), b, vs, 7, amount.rest);
    var balance := ReadInt128Of(amount.rest);
    if !balance.Got? { return; }
    vs := Fill(Formats(), b, vs, 7, amount.rest, Num(balance.value), balance.rest);
    l := l.(amount := amount.value, balance := balance.value);
    t, v := balance.rest, Done;
  }

  /** The flag and the presence byte behind one check, then the memo. */
  method ReadEnd(b: seq<byte>, l0: Ledger, t: seq<byte>, ghost vs0: seq<Val>) returns (v: Verdict, l: Ledger)
    requires Filled(Formats(), b, vs0, 8, t) && Holds(vs0, l0, 8)
    ensures !v.UnknownOrdinal? && (v.Short? ==> DecodeFields(Formats(), b) == Truncated)
    ensures v.Done? ==> Decode(LEDGER, b).Got? && Decode(LEDGER, b).value == Fields(Values(l))
  {
    hide Decode, DecodeFields, Filled, NumFmt, Formats, Values;
    l, v := l0, Short;
    ghost var vs := vs0;
    if |t| < 2 {
      EndShort(b, vs, t);
      return;
    }
    FlagAt(t, 0);
    assert t[0..] == t && t[1..] == [t[1]] + t[2..];
    vs := Fill(Formats(), b, vs, 8, t, Bit(t[0] != 0), t[1..]);
    FillFails(Formats(), b, vs, 9, t[1..]);
    var memo := OptTextAfter(t[1], t[2..]);
    if !memo.Got? { return; }
    vs := Fill(Formats(), b, vs, 9, t[1..], OptVal(memo.value, TextVal), memo.rest);
    l, v := l.(confirmed := t[0] != 0, memo := memo.value), Done;
    assert vs == Values(l);
    FillEnd(Formats(), b, vs, memo.rest);
  }

  /** Reading the fields, one block after the other. */
  method DecodeLedger(b: seq<byte>) returns (v: Verdict, l: Ledger)
    ensures !v.UnknownOrdinal? && (v.Short? ==> Decode(LEDGER, b) == Truncated)
    ensures v.Done? ==> Decode(LEDGER, b).Got? && Decode(LEDGER, b).value == Fields(Values(l))
  {
    RecordDecode(Formats(), b);
    hide Decode, DecodeFields, Filled, Formats, Values, Holds;
    var t;
    ghost var vs;
    v, l, t, vs := ReadHead(b);
    if !v.Done? { return; }
    v, l, t, vs := ReadNames(b, l, t, vs);
    if !v.Done? { return; }
    v, l, t, vs := ReadBig(b, l, t, vs);
    if !v.Done? { return; }
    v, l := ReadEnd(b, l, t, vs);
  }

  // ---- the record ----------------------------------------------------------

  class LedgerEntry {
    var entryID: int
    var blockNumber: int
    var blockTime: int
    var txHash: seq<byte>
    var account: seq<byte>
    var asset: seq<byte>
    var amount: Option<int>
    var balance: Option<int>
    var confirmed: bool
    var memo: Option<seq<byte>>

    constructor () {
      entryID, blockNumber, blockTime, txHash, account, asset := 0, 0, 0, [], [], [];
      amount, balance, confirmed, memo := None, None, false, None;
    }

    function View(): Ledger
      reads this
    {
      Ledger(entryID, blockNumber, blockTime, txHash, account, asset, OrZero(amount), OrZero(balance), confirmed, memo)
    }

    method MarshalBinary() returns (out: seq<byte>)
      ensures Shaped(LEDGER, Fields(Values(View()))) && out == Encode(LEDGER, Fields(Values(View())))
    {
      hide Encode, Shaped, Values, Formats;
      out := EncodeLedger(View(), amount, balance);
    }

    /** Every input: the entry is filled and Done, or the input was short, just as the
        format says. */
    method UnmarshalBinary(b: seq<byte>) returns (v: Verdict)
      modifies this
      ensures !v.UnknownOrdinal? && (v.Short? ==> Decode(LEDGER, b) == Truncated)
      ensures v.Done? ==> Decode(LEDGER, b).Got? && Decode(LEDGER, b).value == Fields(Values(View()))
      ensures v.Done? ==> amount.Some? && balance.Some?
    {
      hide Decode, Values, Formats;
      var l;
      v, l := DecodeLedger(b);
      if v.Done? {
        entryID, blockNumber, blockTime, txHash, account := l.entryID, l.blockNumber, l.blockTime, l.txHash, l.account;
        asset, amount, balance, confirmed, memo := l.asset, Some(l.amount), Some(l.balance), l.confirmed, l.memo;
        assert View() == l;
      }
    }
  }

  // ---- there and back ------------------------------------------------------

  lemma SameField(l: Ledger, m: Ledger, i: nat)
    requires i < 10 && Values(l) == Values(m)
    ensures LedgerVal(l, i) == LedgerVal(m, i)
  {
    assert Values(l)[i] == Values(m)[i];
  }

  /** The values determine the entry. */
  lemma SameLedger(l: Ledger, m: Ledger)
    requires Values(l) == Values(m)
    ensures l == m
  {
    hide Values;
    SameField(l, m, 0);
    SameField(l, m, 1);
    SameField(l, m, 2);
    SameField(l, m, 3);
    SameField(l, m, 4);
    SameField(l, m, 5);
    SameField(l, m, 6);
    SameField(l, m, 7);
    SameField(l, m, 8);
    SameField(l, m, 9);
  }

  /** Numbers in the range of their width, lengths below 2^32. */
  predicate InLimits(l: Ledger) {
    Shaped(LEDGER, Fields(Values(l))) && Fits(LEDGER, Fields(Values(l)))
  }

  lemma EntryBack(l: Ledger, n: nat)
    requires InLimits(l)
    ensures var vs := Values(l);
            && Shaped(LEDGER, Fields(vs)) && |Encode(LEDGER, Fields(vs))| > 0
            && Decode(LEDGER, Encode(LEDGER, Fields(vs))) == Got(Fields(vs), [])
            && (n < |Encode(LEDGER, Fields(vs))| ==> Decode(LEDGER, Encode(LEDGER, Fields(vs))[..n]) == Truncated)
  {
    forall i: nat | i < 10 ensures Meaning(LedgerVal(l, i)) == LedgerVal(l, i) { }
    hide Encode, Decode, Shaped, Fits, LedgerVal, Meaning;
    RecordNotEmpty(Formats(), Values(l));
    RecordBack(Formats(), Values(l), Values(l), n);
  }

  /** Writing an entry and reading it back gives the same entry, nil integers as zeros;
      and every strict prefix of the bytes is short. */
  method WriteAndRead(rec: LedgerEntry, cut: nat) returns (back: LedgerEntry, v: Verdict, w: Verdict)
    requires InLimits(rec.View())
    ensures v == Done && fresh(back) && back.View() == rec.View() && back.amount.Some? && back.balance.Some?
    ensures w == Short
  {
    ghost var l := rec.View();
    var out := rec.MarshalBinary();
    hide Encode, Decode, Shaped, Values, Formats, InLimits;
    EntryBack(l, 0);
    var n := cut % |out|;
    EntryBack(l, n);
    back := new LedgerEntry();
    v := back.UnmarshalBinary(out);
    SameLedger(back.View(), l);
    var scratch := new LedgerEntry();
    w := scratch.UnmarshalBinary(out[..n]);
  }
}
