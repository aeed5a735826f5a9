/** The blocks that the Go record codecs repeat: counted lists, maps, optional values,
    runs of fixed-width fields behind one length check, and the 128-bit integers,
    each against its format. */
module Blocks {
  import opened Common
  import opened LittleEndian
  import opened Layout
  import opened Records
  import Int128

  /** What a decoder reports. */
  datatype Verdict = Done | Short | UnknownOrdinal

  /** The fixed arrays of the records. */
  type Four = s: seq<byte> | |s| == 4 witness [0, 0, 0, 0]
  type Three = s: seq<int> | |s| == 3 witness [0, 0, 0]

  // ---- typed values as values of a format ----------------------------------

  function NumVal(n: int): Val { Num(n) }

  function BitVal(b: bool): Val { Bit(b) }

  function TextVal(s: seq<byte>): Val { Text(s) }

  function Vals<T>(xs: seq<T>, f: T -> Val): (vs: seq<Val>)
    ensures |vs| == |xs| && forall i | 0 <= i < |xs| :: vs[i] == f(xs[i])
  {
    seq(|xs|, i requires 0 <= i < |xs| => f(xs[i]))
  }

  function ByteVals(bs: seq<byte>): (vs: seq<Val>)
    ensures |vs| == |bs| && forall i | 0 <= i < |bs| :: vs[i] == Num(bs[i])
  {
    seq(|bs|, i requires 0 <= i < |bs| => Num(bs[i]))
  }

  function OptVal<T>(o: Option<T>, f: T -> Val): Val {
    match o case None => Nothing case Some(x) => Just(f(x))
  }

  function Mapped<T>(m: map<seq<byte>, T>, f: T -> Val): (r: map<seq<byte>, Val>)
    ensures r.Keys == m.Keys && forall k | k in m :: r[k] == f(m[k])
  {
    map k | k in m :: f(m[k])
  }

  function Listed<T>(m: map<seq<byte>, T>, keys: seq<seq<byte>>, f: T -> Val): (vs: seq<Val>)
    requires forall k | k in keys :: k in m
    ensures |vs| == |keys| && forall i | 0 <= i < |keys| :: vs[i] == f(m[keys[i]])
  {
    seq(|keys|, i requires 0 <= i < |keys| => f(m[keys[i]]))
  }

  /** The listing names every key of the map once. */
  ghost predicate Lists<T>(keys: seq<seq<byte>>, m: map<seq<byte>, T>) {
    AllDifferent(keys) && forall k :: k in keys <==> k in m
  }

  lemma ListsAre<T>(keys: seq<seq<byte>>, m: map<seq<byte>, T>)
    requires Lists(keys, m)
    ensures forall k | k in keys :: k in m
  {
  }

  /** A field of this many bytes, signed or not. */
  function NumFmt(k: nat, signed: bool): Fmt { if signed then SInt(k) else UInt(k) }

  function OrZero(n: Option<int>): int { if n.Some? then n.value else 0 }

  /** What a list of big integers stands for: nil is zero. */
  function OrZeros(ns: seq<Option<int>>): (r: seq<int>)
    ensures |r| == |ns| && forall i | 0 <= i < |ns| :: r[i] == OrZero(ns[i])
  {
    seq(|ns|, i requires 0 <= i < |ns| => OrZero(ns[i]))
  }

  function Somes(ns: seq<int>): (r: seq<Option<int>>)
    ensures |r| == |ns| && forall i | 0 <= i < |ns| :: r[i] == Some(ns[i])
  {
    seq(|ns|, i requires 0 <= i < |ns| => Some(ns[i]))
  }

  lemma SomesBack(ns: seq<int>)
    ensures OrZeros(Somes(ns)) == ns && None !in Somes(ns)
  {
  }

  // ---- shapes --------------------------------------------------------------

  lemma ManyShaped(e: Fmt, items: seq<Val>)
    requires forall i | i in items :: Shaped(e, i)
    ensures Shaped(List(e), Many(items)) && Encode(List(e), Many(items)) == Count(|items|) + EncodeAll(e, items)
  {
  }

  lemma FixedShaped(e: Fmt, items: seq<Val>)
    requires forall i | i in items :: Shaped(e, i)
    ensures Shaped(Fixed(e, |items|), Many(items)) && Encode(Fixed(e, |items|), Many(items)) == EncodeAll(e, items)
  {
  }

  lemma DictShaped(e: Fmt, keys: seq<seq<byte>>, values: seq<Val>)
    requires |keys| == |values| && forall i | i in values :: Shaped(e, i)
    ensures Shaped(Dict(e), Entries(keys, values))
    ensures Encode(Dict(e), Entries(keys, values)) == Count(|keys|) + EncodeEntries(e, keys, values)
  {
  }

  lemma OptShaped<T>(e: Fmt, o: Option<T>, f: T -> Val)
    requires o.Some? ==> Shaped(e, f(o.value))
    ensures Shaped(Optional(e), OptVal(o, f))
    ensures Encode(Optional(e), OptVal(o, f)) == if o.None? then [0] else [1] + Encode(e, f(o.value))
  {
  }

  lemma ValsShaped<T>(e: Fmt, xs: seq<T>, f: T -> Val)
    requires forall i | 0 <= i < |xs| :: Shaped(e, f(xs[i]))
    ensures forall v | v in Vals(xs, f) :: Shaped(e, v)
  {
  }

  lemma NumsShaped(k: nat, signed: bool, ns: seq<int>)
    ensures forall v | v in Vals(ns, NumVal) :: Shaped(NumFmt(k, signed), v)
  {
  }

  lemma ListedShaped<T>(e: Fmt, m: map<seq<byte>, T>, keys: seq<seq<byte>>, f: T -> Val)
    requires forall k | k in keys :: k in m && Shaped(e, f(m[k]))
    ensures forall v | v in Listed(m, keys, f) :: Shaped(e, v)
  {
    var vs := Listed(m, keys, f);
    forall v | v in vs ensures Shaped(e, v) {
      var i :| 0 <= i < |vs| && vs[i] == v;
      assert keys[i] in keys;
    }
  }

  lemma AddressShaped(a: Address)
    ensures Shaped(ADDRESS, AddressVal(a))
  {
  }

  // ---- writing -------------------------------------------------------------

  lemma {:induction false} AllSnoc(e: Fmt, items: seq<Val>, v: Val)
    requires (forall i | i in items :: Shaped(e, i)) && Shaped(e, v)
    ensures EncodeAll(e, items + [v]) == EncodeAll(e, items) + Encode(e, v)
    decreases |items|
  {
    hide Encode, Shaped;
    if items == [] {
      assert items + [v] == [v] && [v][1..] == [];
    } else {
      assert (items + [v])[1..] == items[1..] + [v] && (items + [v])[0] == items[0];
      AllSnoc(e, items[1..], v);
    }
  }

  /** What has been appended to `start` is the first `i` elements. */
  ghost predicate Wrote(e: Fmt, vs: seq<Val>, start: seq<byte>, i: nat, out: seq<byte>)
    requires i <= |vs| && forall v | v in vs :: Shaped(e, v)
  {
    (forall v | v in vs[..i] :: v in vs) && out == start + EncodeAll(e, vs[..i])
  }

  lemma WroteNone(e: Fmt, vs: seq<Val>, start: seq<byte>)
    requires forall v | v in vs :: Shaped(e, v)
    ensures Wrote(e, vs, start, 0, start)
  {
  }

  lemma WroteOne(e: Fmt, vs: seq<Val>, start: seq<byte>, i: nat, out: seq<byte>)
    requires (forall v | v in vs :: Shaped(e, v)) && i < |vs| && Wrote(e, vs, start, i, out)
    ensures vs[i] in vs && Wrote(e, vs, start, i + 1, out + Encode(e, vs[i]))
  {
    hide Encode, EncodeAll, Shaped;
    assert vs[..i + 1] == vs[..i] + [vs[i]];
    AllSnoc(e, vs[..i], vs[i]);
  }

  lemma WroteAll(e: Fmt, vs: seq<Val>, start: seq<byte>, out: seq<byte>)
    requires (forall v | v in vs :: Shaped(e, v)) && Wrote(e, vs, start, |vs|, out)
    ensures out == start + EncodeAll(e, vs)
  {
    assert vs[..|vs|] == vs;
  }

  /** appendCount. */
  method AppendCount(buf: seq<byte>, n: nat) returns (out: seq<byte>)
    ensures out == buf + Count(n)
  {
    out := PutLE(buf, n, 4);
  }

  method AppendNum(buf: seq<byte>, n: int, k: nat, signed: bool) returns (out: seq<byte>)
    ensures Shaped(NumFmt(k, signed), Num(n)) && out == buf + Encode(NumFmt(k, signed), Num(n))
  {
    out := PutLE(buf, Residue(n, k), k);
  }

  /** Each number in its own width. */
  method AppendEach(buf: seq<byte>, ns: seq<int>, k: nat, signed: bool) returns (out: seq<byte>)
    ensures (forall v | v in Vals(ns, NumVal) :: Shaped(NumFmt(k, signed), v))
    ensures out == buf + EncodeAll(NumFmt(k, signed), Vals(ns, NumVal))
  {
    ghost var e, vs := NumFmt(k, signed), Vals(ns, NumVal);
    NumsShaped(k, signed, ns);
    hide Encode, EncodeAll, Shaped, Wrote, NumFmt;
    out := buf;
    WroteNone(e, vs, buf);
    for i := 0 to |ns|
      invariant Wrote(e, vs, buf, i, out)
    {
      WroteOne(e, vs, buf, i, out);
      out := AppendNum(out, ns[i], k, signed);
    }
    WroteAll(e, vs, buf, out);
  }

  /** A counted list of numbers. */
  method AppendNumbers(buf: seq<byte>, ns: seq<int>, k: nat, signed: bool) returns (out: seq<byte>)
    ensures Shaped(List(NumFmt(k, signed)), Many(Vals(ns, NumVal)))
    ensures out == buf + Encode(List(NumFmt(k, signed)), Many(Vals(ns, NumVal)))
  {
    NumsShaped(k, signed, ns);
    ManyShaped(NumFmt(k, signed), Vals(ns, NumVal));
    hide Encode, EncodeAll, Shaped, NumFmt;
    out := AppendCount(buf, |ns|);
    out := AppendEach(out, ns, k, signed);
  }

  /** Bytes are their own encoding, so they are appended in one piece. */
  lemma {:induction false} BytesAll(bs: seq<byte>)
    ensures (forall v | v in ByteVals(bs) :: Shaped(UInt(1), v)) && EncodeAll(UInt(1), ByteVals(bs)) == bs
  {
    if bs != [] {
      var vs := ByteVals(bs);
      BytesAll(bs[1..]);
      OneByte(bs[0]);
      assert vs[1..] == ByteVals(bs[1..]);
      assert vs[0] == Num(bs[0]) && bs == [bs[0]] + bs[1..];
      assert forall v | v in vs :: v == vs[0] || v in vs[1..];
      hide Encode;
      assert EncodeAll(UInt(1), vs) == Encode(UInt(1), vs[0]) + EncodeAll(UInt(1), vs[1..]);
    }
  }

  method AppendBytes(buf: seq<byte>, bs: seq<byte>) returns (out: seq<byte>)
    ensures Shaped(List(UInt(1)), Many(ByteVals(bs)))
    ensures out == buf + Encode(List(UInt(1)), Many(ByteVals(bs)))
  {
    BytesAll(bs);
    ManyShaped(UInt(1), ByteVals(bs));
    hide Encode, EncodeAll, Shaped, ByteVals;
    out := AppendCount(buf, |bs|);
    out := out + bs;
  }

  method AppendFlags(buf: seq<byte>, bs: seq<bool>) returns (out: seq<byte>)
    ensures Shaped(List(Flag), Many(Vals(bs, BitVal)))
    ensures out == buf + Encode(List(Flag), Many(Vals(bs, BitVal)))
  {
    ghost var vs := Vals(bs, BitVal);
    ValsShaped(Flag, bs, BitVal);
    ManyShaped(Flag, vs);
    hide Encode, EncodeAll, Shaped, Wrote;
    out := AppendCount(buf, |bs|);
    ghost var head := out;
    WroteNone(Flag, vs, head);
    for i := 0 to |bs|
      invariant Wrote(Flag, vs, head, i, out)
    {
      WroteOne(Flag, vs, head, i, out);
      out := AppendFlag(out, bs[i]);
    }
    WroteAll(Flag, vs, head, out);
  }

  /** appendInt128 writes what the format asks of a 16-byte number. */
  lemma Bytes128Is(n: int, signed: bool)
    ensures Shaped(NumFmt(16, signed), Num(n)) && Encode(NumFmt(16, signed), Num(n)) == Int128.Bytes128(n)
  {
    Int128.Pow256Values();
  }

  lemma Int128sShaped(ns: seq<Option<int>>, signed: bool)
    ensures (forall v | v in Vals(OrZeros(ns), NumVal) :: Shaped(NumFmt(16, signed), v))
    ensures Shaped(List(NumFmt(16, signed)), Many(Vals(OrZeros(ns), NumVal)))
    ensures Encode(List(NumFmt(16, signed)), Many(Vals(OrZeros(ns), NumVal))) ==
            Count(|ns|) + EncodeAll(NumFmt(16, signed), Vals(OrZeros(ns), NumVal))
    ensures forall i | 0 <= i < |ns| :: Vals(OrZeros(ns), NumVal)[i] == Num(OrZero(ns[i]))
  {
    NumsShaped(16, signed, OrZeros(ns));
    ManyShaped(NumFmt(16, signed), Vals(OrZeros(ns), NumVal));
    hide Encode, EncodeAll, Shaped;
  }

  method AppendInt128s(buf: seq<byte>, ns: seq<Option<int>>, ghost signed: bool) returns (out: seq<byte>)
    ensures Shaped(List(NumFmt(16, signed)), Many(Vals(OrZeros(ns), NumVal)))
    ensures out == buf + Encode(List(NumFmt(16, signed)), Many(Vals(OrZeros(ns), NumVal)))
  {
    hide Encode, EncodeAll, Shaped, Wrote, NumFmt, Int128.Bytes128, Count, Vals, OrZeros;
    ghost var e, vs := NumFmt(16, signed), Vals(OrZeros(ns), NumVal);
    Int128sShaped(ns, signed);
    out := AppendCount(buf, |ns|);
    ghost var head := out;
    WroteNone(e, vs, head);
    for i := 0 to |ns|
      invariant Wrote(e, vs, head, i, out)
    {
      WroteOne(e, vs, head, i, out);
      Bytes128Is(OrZero(ns[i]), signed);
      out := Int128.AppendInt128(out, ns[i]);
    }
    WroteAll(e, vs, head, out);
  }

  lemma TextOut(ss: seq<seq<byte>>, start: seq<byte>, i: nat, out: seq<byte>)
    requires i < |ss| && (forall v | v in Vals(ss, TextVal) :: Shaped(Blob, v))
    requires Wrote(Blob, Vals(ss, TextVal), start, i, out)
    ensures Wrote(Blob, Vals(ss, TextVal), start, i + 1, out + Encode(Blob, Text(ss[i])))
  {
    hide Encode, Wrote;
    WroteOne(Blob, Vals(ss, TextVal), start, i, out);
  }

  lemma TextsOut(buf: seq<byte>, ss: seq<seq<byte>>, out: seq<byte>)
    requires forall v | v in Vals(ss, TextVal) :: Shaped(Blob, v)
    requires Wrote(Blob, Vals(ss, TextVal), buf + Count(|ss|), |ss|, out)
    ensures Shaped(List(Blob), Many(Vals(ss, TextVal)))
    ensures out == buf + Encode(List(Blob), Many(Vals(ss, TextVal)))
  {
    ManyShaped(Blob, Vals(ss, TextVal));
    WroteAll(Blob, Vals(ss, TextVal), buf + Count(|ss|), out);
    hide Encode, EncodeAll, Shaped, Wrote, TextVal;
  }

  method AppendTexts(buf: seq<byte>, ss: seq<seq<byte>>) returns (out: seq<byte>)
    ensures Shaped(List(Blob), Many(Vals(ss, TextVal)))
    ensures out == buf + Encode(List(Blob), Many(Vals(ss, TextVal)))
  {
    ValsShaped(Blob, ss, TextVal);
    hide Encode, EncodeAll, Shaped, Wrote, TextVal;
    out := AppendCount(buf, |ss|);
    WroteNone(Blob, Vals(ss, TextVal), out);
    for i := 0 to |ss|
      invariant Wrote(Blob, Vals(ss, TextVal), buf + Count(|ss|), i, out)
    {
      TextOut(ss, buf + Count(|ss|), i, out);
      out := AppendLenStr(out, ss[i]);
    }
    TextsOut(buf, ss, out);
  }

  method AppendAddresses(buf: seq<byte>, xs: seq<Address>) returns (out: seq<byte>)
    ensures Shaped(List(ADDRESS), Many(Vals(xs, AddressVal)))
    ensures out == buf + Encode(List(ADDRESS), Many(Vals(xs, AddressVal)))
  {
    ghost var vs := Vals(xs, AddressVal);
    forall i | 0 <= i < |xs| ensures Shaped(ADDRESS, AddressVal(xs[i])) { AddressShaped(xs[i]); }
    ValsShaped(ADDRESS, xs, AddressVal);
    ManyShaped(ADDRESS, vs);
    hide Encode, EncodeAll, Shaped, Wrote, AddressVal;
    out := AppendCount(buf, |xs|);
    ghost var head := out;
    WroteNone(ADDRESS, vs, head);
    for i := 0 to |xs|
      invariant Wrote(ADDRESS, vs, head, i, out)
    {
      WroteOne(ADDRESS, vs, head, i, out);
      out := AppendAddress(out, xs[i]);
    }
    WroteAll(ADDRESS, vs, head, out);
  }

  method AppendOptText(buf: seq<byte>, o: Option<seq<byte>>) returns (out: seq<byte>)
    ensures Shaped(Optional(Blob), OptVal(o, TextVal)) && out == buf + Encode(Optional(Blob), OptVal(o, TextVal))
  {
    OptShaped(Blob, o, TextVal);
    hide Encode;
    if o.None? {
      return buf + [0];
    }
    out := AppendLenStr(buf + [1], o.value);
  }

  method AppendOptNum(buf: seq<byte>, o: Option<int>, k: nat) returns (out: seq<byte>)
    ensures Shaped(Optional(UInt(k)), OptVal(o, NumVal)) && out == buf + Encode(Optional(UInt(k)), OptVal(o, NumVal))
  {
    OptShaped(UInt(k), o, NumVal);
    hide Encode;
    if o.None? {
      return buf + [0];
    }
    out := AppendUInt(buf + [1], o.value, k);
  }

  lemma NumbersShaped(k: nat, signed: bool, ns: seq<int>)
    ensures Shaped(List(NumFmt(k, signed)), Many(Vals(ns, NumVal)))
    ensures Shaped(Fixed(NumFmt(k, signed), |ns|), Many(Vals(ns, NumVal)))
  {
    NumsShaped(k, signed, ns);
    ManyShaped(NumFmt(k, signed), Vals(ns, NumVal));
    FixedShaped(NumFmt(k, signed), Vals(ns, NumVal));
  }

  lemma TextsShaped(ss: seq<seq<byte>>)
    ensures Shaped(List(Blob), Many(Vals(ss, TextVal)))
  {
    ValsShaped(Blob, ss, TextVal);
    ManyShaped(Blob, Vals(ss, TextVal));
  }

  lemma BytesShaped(bs: seq<byte>)
    ensures Shaped(List(UInt(1)), Many(ByteVals(bs))) && Shaped(Fixed(UInt(1), |bs|), Many(ByteVals(bs)))
  {
    BytesAll(bs);
    ManyShaped(UInt(1), ByteVals(bs));
    FixedShaped(UInt(1), ByteVals(bs));
  }

  lemma FourBytes(bs: Four)
    ensures Encode(Fixed(UInt(1), 4), Many(ByteVals(bs))) == bs
  {
    BytesAll(bs);
    FixedShaped(UInt(1), ByteVals(bs));
  }

  lemma ThreeBytes(ns: Three)
    ensures Encode(Fixed(NumFmt(2, true), 3), Many(Vals(ns, NumVal))) == EncodeAll(NumFmt(2, true), Vals(ns, NumVal))
  {
    NumsShaped(2, true, ns);
    FixedShaped(NumFmt(2, true), Vals(ns, NumVal));
  }

  // ---- writing maps --------------------------------------------------------

  /** mapKeys: the keys in some order. */
  method MapKeys<T>(m: map<seq<byte>, T>) returns (keys: seq<seq<byte>>)
    ensures Lists(keys, m)
  {
    keys := [];
    var rest := m.Keys;
    while rest != {}
      invariant rest <= m.Keys && AllDifferent(keys)
      invariant forall k :: k in keys <==> k in m && k !in rest
      decreases |rest|
    {
      var k :| k in rest;
      rest := rest - {k};
      keys := keys + [k];
    }
  }

  lemma {:induction false} EntriesSnoc(e: Fmt, keys: seq<seq<byte>>, values: seq<Val>, k: seq<byte>, v: Val)
    requires |keys| == |values| && (forall i | i in values :: Shaped(e, i)) && Shaped(e, v)
    ensures EncodeEntries(e, keys + [k], values + [v]) == EncodeEntries(e, keys, values) + (Prefixed(k) + Encode(e, v))
    decreases |keys|
  {
    hide Encode, Shaped, Prefixed;
    if keys == [] {
      assert keys + [k] == [k] && values + [v] == [v] && [k][1..] == [] && [v][1..] == [];
    } else {
      assert (keys + [k])[1..] == keys[1..] + [k] && (values + [v])[1..] == values[1..] + [v];
      EntriesSnoc(e, keys[1..], values[1..], k, v);
    }
  }

  /** What has been appended to `start` is the first `i` entries. */
  ghost predicate WroteEntries(e: Fmt, keys: seq<seq<byte>>, vs: seq<Val>, start: seq<byte>, i: nat, out: seq<byte>)
    requires i <= |vs| == |keys| && forall v | v in vs :: Shaped(e, v)
  {
    (forall v | v in vs[..i] :: v in vs) && out == start + EncodeEntries(e, keys[..i], vs[..i])
  }

  lemma WroteNoEntries(e: Fmt, keys: seq<seq<byte>>, vs: seq<Val>, start: seq<byte>)
    requires |vs| == |keys| && forall v | v in vs :: Shaped(e, v)
    ensures WroteEntries(e, keys, vs, start, 0, start)
  {
  }

  lemma FirstsIn(vs: seq<Val>, i: nat)
    requires i < |vs|
    ensures vs[i] in vs && forall v | v in vs[..i + 1] :: v in vs
  {
  }

  lemma WroteEntry(e: Fmt, keys: seq<seq<byte>>, vs: seq<Val>, start: seq<byte>, i: nat, out: seq<byte>)
    requires i < |vs| == |keys| && (forall v | v in vs :: Shaped(e, v)) && WroteEntries(e, keys, vs, start, i, out)
    ensures vs[i] in vs && keys[i] in keys && Shaped(Blob, Text(keys[i]))
    ensures WroteEntries(e, keys, vs, start, i + 1, out + Encode(Blob, Text(keys[i])) + Encode(e, vs[i]))
  {
    assert Encode(Blob, Text(keys[i])) == Prefixed(keys[i]);
    hide Encode, EncodeEntries, Shaped, Prefixed;
    FirstsIn(vs, i);
    assert vs[..i + 1] == vs[..i] + [vs[i]] && keys[..i + 1] == keys[..i] + [keys[i]];
    EntriesSnoc(e, keys[..i], vs[..i], keys[i], vs[i]);
    FourParts(start, EncodeEntries(e, keys[..i], vs[..i]), Prefixed(keys[i]), Encode(e, vs[i]));
  }

  lemma FourParts(a: seq<byte>, b: seq<byte>, c: seq<byte>, d: seq<byte>)
    ensures (a + b) + c + d == a + (b + (c + d))
  {
  }

  lemma WroteAllEntries(e: Fmt, keys: seq<seq<byte>>, vs: seq<Val>, start: seq<byte>, out: seq<byte>)
    requires |vs| == |keys| && (forall v | v in vs :: Shaped(e, v)) && WroteEntries(e, keys, vs, start, |vs|, out)
    ensures out == start + EncodeEntries(e, keys, vs)
  {
    assert vs[..|vs|] == vs && keys[..|keys|] == keys;
  }

  lemma DictListed<T>(e: Fmt, m: map<seq<byte>, T>, keys: seq<seq<byte>>, f: T -> Val)
    requires Lists(keys, m) && forall k | k in m :: Shaped(e, f(m[k]))
    ensures (forall k | k in keys :: k in m) && forall v | v in Listed(m, keys, f) :: Shaped(e, v)
    ensures Shaped(Dict(e), Entries(keys, Listed(m, keys, f)))
    ensures Encode(Dict(e), Entries(keys, Listed(m, keys, f))) ==
            Count(|keys|) + EncodeEntries(e, keys, Listed(m, keys, f))
  {
    hide Shaped, AllDifferent, Encode, EncodeEntries, Listed;
    ListedShaped(e, m, keys, f);
    DictShaped(e, keys, Listed(m, keys, f));
  }

  lemma NumShaped(k: nat, n: int)
    ensures Shaped(UInt(k), NumVal(n)) && NumVal(n) == Num(n)
  {
  }

  lemma TextShaped(s: seq<byte>)
    ensures Shaped(Blob, TextVal(s)) && TextVal(s) == Text(s)
  {
  }

  /** A map to numbers of eight bytes, in the order of the keys. */
  method AppendCounts(buf: seq<byte>, m: map<seq<byte>, int>, keys: seq<seq<byte>>) returns (out: seq<byte>)
    requires Lists(keys, m)
    ensures forall k | k in keys :: k in m
    ensures Shaped(Dict(UInt(8)), Entries(keys, Listed(m, keys, NumVal)))
    ensures out == buf + Encode(Dict(UInt(8)), Entries(keys, Listed(m, keys, NumVal)))
  {
    hide Encode, EncodeEntries, Shaped, WroteEntries, Count, Lists, Listed, NumVal;
    forall k | k in m ensures Shaped(UInt(8), NumVal(m[k])) { NumShaped(8, m[k]); }
    DictListed(UInt(8), m, keys, NumVal);
    ghost var vs := Listed(m, keys, NumVal);
    out := AppendCount(buf, |keys|);
    ghost var head := out;
    WroteNoEntries(UInt(8), keys, vs, head);
    for i := 0 to |keys|
      invariant WroteEntries(UInt(8), keys, vs, head, i, out)
    {
      WroteEntry(UInt(8), keys, vs, head, i, out);
      NumShaped(8, m[keys[i]]);
      out := AppendLenStr(out, keys[i]);
      out := AppendUInt(out, m[keys[i]], 8);
    }
    WroteAllEntries(UInt(8), keys, vs, head, out);
  }

  method AppendTextMap(buf: seq<byte>, m: map<seq<byte>, seq<byte>>, keys: seq<seq<byte>>) returns (out: seq<byte>)
    requires Lists(keys, m)
    ensures forall k | k in keys :: k in m
    ensures Shaped(Dict(Blob), Entries(keys, Listed(m, keys, TextVal)))
    ensures out == buf + Encode(Dict(Blob), Entries(keys, Listed(m, keys, TextVal)))
  {
    hide Encode, EncodeEntries, Shaped, WroteEntries, Count, Lists, Listed, TextVal;
    forall k | k in m ensures Shaped(Blob, TextVal(m[k])) { TextShaped(m[k]); }
    DictListed(Blob, m, keys, TextVal);
    ghost var vs := Listed(m, keys, TextVal);
    out := AppendCount(buf, |keys|);
    ghost var head := out;
    WroteNoEntries(Blob, keys, vs, head);
    for i := 0 to |keys|
      invariant WroteEntries(Blob, keys, vs, head, i, out)
    {
      WroteEntry(Blob, keys, vs, head, i, out);
      TextShaped(m[keys[i]]);
      out := AppendLenStr(out, keys[i]);
      out := AppendLenStr(out, m[keys[i]]);
    }
    WroteAllEntries(Blob, keys, vs, head, out);
  }

  method AppendAddressMap(buf: seq<byte>, m: map<seq<byte>, Address>, keys: seq<seq<byte>>) returns (out: seq<byte>)
    requires Lists(keys, m)
    ensures forall k | k in keys :: k in m
    ensures Shaped(Dict(ADDRESS), Entries(keys, Listed(m, keys, AddressVal)))
    ensures out == buf + Encode(Dict(ADDRESS), Entries(keys, Listed(m, keys, AddressVal)))
  {
    hide Encode, EncodeEntries, Shaped, WroteEntries, Count, Lists, Listed, AddressVal;
    forall k | k in m ensures Shaped(ADDRESS, AddressVal(m[k])) { AddressShaped(m[k]); }
    DictListed(ADDRESS, m, keys, AddressVal);
    ghost var vs := Listed(m, keys, AddressVal);
    out := AppendCount(buf, |keys|);
    ghost var head := out;
    WroteNoEntries(ADDRESS, keys, vs, head);
    for i := 0 to |keys|
      invariant WroteEntries(ADDRESS, keys, vs, head, i, out)
    {
      WroteEntry(ADDRESS, keys, vs, head, i, out);
      AddressShaped(m[keys[i]]);
      out := AppendLenStr(out, keys[i]);
      out := AppendAddress(out, m[keys[i]]);
    }
    WroteAllEntries(ADDRESS, keys, vs, head, out);
  }

  // ---- reading -------------------------------------------------------------

  /** The first elements have been read as `vals`; `t` is what is left. */
  ghost predicate AllTo(e: Fmt, n: nat, b: seq<byte>, i: nat, vals: seq<Val>, t: seq<byte>)
    requires i <= n
  {
    DecodeAll(e, n, b) == ReadAfter(vals, DecodeAll(e, n - i, t))
  }

  lemma AllStart(e: Fmt, n: nat, b: seq<byte>)
    ensures AllTo(e, n, b, 0, [], b)
  {
    var r := DecodeAll(e, n, b);
    if r.Got? { assert [] + r.value == r.value; }
  }

  lemma AllNext(e: Fmt, n: nat, b: seq<byte>, i: nat, vals: seq<Val>, t: seq<byte>)
    requires i < n && AllTo(e, n, b, i, vals, t)
    ensures match Decode(e, t)
            case Got(v, u) => AllTo(e, n, b, i + 1, vals + [v], u)
            case Truncated => DecodeAll(e, n, b) == Truncated
            case BadOrdinal => DecodeAll(e, n, b) == BadOrdinal
  {
    hide Decode;
    match Decode(e, t)
    case Got(v, u) =>
      var r := DecodeAll(e, n - i - 1, u);
      if r.Got? { assert vals + ([v] + r.value) == (vals + [v]) + r.value; }
    case _ =>
  }

  lemma AllEnd(e: Fmt, n: nat, b: seq<byte>, vals: seq<Val>, t: seq<byte>)
    requires AllTo(e, n, b, n, vals, t)
    ensures DecodeAll(e, n, b) == Got(vals, t)
  {
    assert vals + [] == vals;
  }

  method ReadCountOf(b: seq<byte>) returns (r: Read<nat>)
    ensures r == ReadCount(b)
  {
    if |b| < 4 { return Truncated; }
    var n, _ := TakeLE(b, 0, 4);
    assert b[0..0 + 4] == b[..4];
    r := Got(n, b[4..]);
  }

  lemma ListDecode(e: Fmt, b: seq<byte>)
    ensures ReadCount(b).Got? ==> Decode(List(e), b) == Lift(DecodeAll(e, ReadCount(b).value, ReadCount(b).rest),
            items => Many(items))
    ensures !ReadCount(b).Got? ==> Decode(List(e), b) == Truncated
  {
  }

  /** A field of a width of its own: any bytes of that many read as some value. */
  predicate Plain(f: Fmt) {
    match f
    case UInt(_) => true
    case SInt(_) => true
    case Flag => true
    case Fixed(e, _) => e.UInt? || e.SInt? || e.Flag?
    case _ => false
  }

  function Wide(f: Fmt): nat
    requires Plain(f)
  {
    match f
    case UInt(k) => k
    case SInt(k) => k
    case Flag => 1
    case Fixed(e, n) => n * Wide(e)
  }

  predicate Leaf(f: Fmt) { f.UInt? || f.SInt? || f.Flag? }

  /** What the first bytes read as. */
  function LeafAt(f: Fmt, b: seq<byte>): Val
    requires Leaf(f) && |b| >= Wide(f)
  {
    match f
    case UInt(k) => Num(FromLE(b[..k]))
    case SInt(k) => Num(SignedFrom(FromLE(b[..k]), k))
    case Flag => Bit(b[0] != 0)
  }

  lemma LeafDecode(f: Fmt, b: seq<byte>)
    requires Leaf(f)
    ensures Decode(f, b) == if |b| < Wide(f) then Truncated else Got(LeafAt(f, b), b[Wide(f)..])
  {
  }

  /** `n` values of `w` bytes each, one after the other. */
  function Chunks(e: Fmt, n: nat, b: seq<byte>): (vs: seq<Val>)
    requires Leaf(e) && |b| >= n * Wide(e)
    ensures |vs| == n
  {
    if n == 0 then []
    else
      assert n * Wide(e) == Wide(e) + (n - 1) * Wide(e);
      [LeafAt(e, b)] + Chunks(e, n - 1, b[Wide(e)..])
  }

  lemma Times(n: nat, w: nat)
    requires n > 0
    ensures n * w == w + (n - 1) * w && (n - 1) * w >= 0
  {
  }

  lemma ChunksStep(e: Fmt, n: nat, b: seq<byte>)
    requires Leaf(e) && n > 0 && |b| >= n * Wide(e)
    ensures |b| >= Wide(e) && |b[Wide(e)..]| >= (n - 1) * Wide(e)
    ensures Chunks(e, n, b) == [LeafAt(e, b)] + Chunks(e, n - 1, b[Wide(e)..])
    ensures b[Wide(e)..][(n - 1) * Wide(e)..] == b[n * Wide(e)..]
  {
    Times(n, Wide(e));
  }

  lemma AllStep(e: Fmt, n: nat, b: seq<byte>)
    requires n > 0
    ensures Decode(e, b) == Truncated ==> DecodeAll(e, n, b) == Truncated
    ensures Decode(e, b).Got? ==>
              DecodeAll(e, n, b) == Lift(DecodeAll(e, n - 1, Decode(e, b).rest), vs => [Decode(e, b).value] + vs)
  {
    hide Decode;
  }

  /** One check on the whole length stands for a check in front of each element. */
  lemma {:induction false} BulkRead(e: Fmt, n: nat, b: seq<byte>)
    requires Leaf(e)
    ensures DecodeAll(e, n, b) == if |b| < n * Wide(e) then Truncated else Got(Chunks(e, n, b), b[n * Wide(e)..])
  {
    if n == 0 {
      assert b[0..] == b;
    } else {
      LeafDecode(e, b);
      AllStep(e, n, b);
      Times(n, Wide(e));
      if |b| >= n * Wide(e) { ChunksStep(e, n, b); }
      hide Decode, DecodeAll, LeafAt, Wide, Chunks, Leaf;
      if |b| >= Wide(e) {
        BulkRead(e, n - 1, b[Wide(e)..]);
      }
    }
  }

  lemma {:induction false} ChunkAt(e: Fmt, n: nat, b: seq<byte>, i: nat)
    requires Leaf(e) && |b| >= n * Wide(e) && i < n
    ensures 0 <= i * Wide(e) && (i + 1) * Wide(e) <= n * Wide(e) && |b[i * Wide(e)..]| >= Wide(e)
    ensures Chunks(e, n, b)[i] == LeafAt(e, b[i * Wide(e)..])
  {
    var w := Wide(e);
    assert n * w == w + (n - 1) * w;
    Ordered(i, n, w);
    hide LeafAt, Wide;
    if i > 0 {
      ChunkAt(e, n - 1, b[w..], i - 1);
      assert i * w == w + (i - 1) * w;
      assert b[w..][(i - 1) * w..] == b[i * w..];
    } else {
      assert b[0..] == b;
    }
  }

  lemma Ordered(i: nat, n: nat, w: nat)
    requires i < n
    ensures 0 <= i * w && (i + 1) * w <= n * w && i * w + w == (i + 1) * w
  {
    assert n * w == (i + 1) * w + (n - i - 1) * w;
  }

  lemma PlainDecode(f: Fmt, b: seq<byte>)
    requires Plain(f)
    ensures |b| < Wide(f) ==> Decode(f, b) == Truncated
    ensures |b| >= Wide(f) ==> Decode(f, b).Got? && Decode(f, b).rest == b[Wide(f)..]
  {
    if f.Fixed? { BulkRead(f.elem, f.count, b); } else { LeafDecode(f, b); }
  }

  /** The least number of bytes a field takes. */
  function AtLeast(f: Fmt): nat {
    match f
    case Optional(_) => 1
    case Enum(_) => 1
    case Sum(_) => 1
    case _ => if Plain(f) then Wide(f) else 0
  }

  lemma TooShort(f: Fmt, b: seq<byte>)
    requires |b| < AtLeast(f)
    ensures Decode(f, b) == Truncated
  {
    if Plain(f) { PlainDecode(f, b); }
  }

  function RunWidth(fs: seq<Fmt>): nat
    requires forall f | f in fs :: Plain(f)
  {
    if fs == [] then 0 else Wide(fs[0]) + RunWidth(fs[1..])
  }

  lemma RunStep(fs: seq<Fmt>, i: nat, j: nat)
    requires i < j <= |fs| && Plain(fs[i]) && forall f | f in fs[i + 1..j] :: Plain(f)
    ensures (forall f | f in fs[i..j] :: Plain(f)) && RunWidth(fs[i..j]) == Wide(fs[i]) + RunWidth(fs[i + 1..j])
  {
    assert fs[i..j] == [fs[i]] + fs[i + 1..j] && fs[i..j][1..] == fs[i + 1..j];
    hide Wide, Plain;
  }

  lemma RunNone(fs: seq<Fmt>, i: nat)
    requires i <= |fs|
    ensures (forall f | f in fs[i..i] :: Plain(f)) && RunWidth(fs[i..i]) == 0
  {
  }

  /** One check in front of a run of fixed-width fields, and of the least the field
      behind them takes, fails only when reading them one by one would. */
  lemma {:induction false} RunShort(fs: seq<Fmt>, b: seq<byte>, i: nat, vals: seq<Val>, t: seq<byte>, n: nat)
    requires i + n < |fs| && ReadTo(fs, b, i, vals, t) && forall f | f in fs[i..i + n] :: Plain(f)
    requires |t| < RunWidth(fs[i..i + n]) + AtLeast(fs[i + n])
    ensures DecodeFields(fs, b) == Truncated
    decreases n
  {
    hide Decode, DecodeFields, ReadTo, AtLeast, Wide;
    ReadNext(fs, b, i, vals, t);
    if n == 0 {
      TooShort(fs[i], t);
    } else {
      assert fs[i] in fs[i..i + n] && fs[i..i + n][1..] == fs[i + 1..i + n] && fs[i..i + n][0] == fs[i];
      PlainDecode(fs[i], t);
      if |t| >= Wide(fs[i]) {
        var v := Decode(fs[i], t).value;
        RunShort(fs, b, i + 1, vals + [v], t[Wide(fs[i])..], n - 1);
      }
    }
  }

  // ---- reading lists -------------------------------------------------------

  function NumsAt(k: nat, signed: bool, n: nat, b: seq<byte>): (ns: seq<int>)
    requires |b| >= n * k
    ensures |ns| == n
  {
    seq(n, i requires 0 <= i < n =>
      Ordered(i, n, k);
      var u := FromLE(b[i * k..i * k + k]);
      if signed then SignedFrom(u, k) else u)
  }

  lemma NumsAreChunks(k: nat, signed: bool, n: nat, b: seq<byte>)
    requires |b| >= n * k
    ensures Chunks(NumFmt(k, signed), n, b) == Vals(NumsAt(k, signed, n, b), NumVal)
  {
    var e, ns := NumFmt(k, signed), NumsAt(k, signed, n, b);
    forall i | 0 <= i < n ensures Chunks(e, n, b)[i] == Num(ns[i]) {
      Ordered(i, n, k);
      ChunkAt(e, n, b, i);
      assert b[i * k..][..k] == b[i * k..i * k + k];
      hide Chunks, FromLE, SignedFrom;
    }
  }

  /** The elements at their offsets, once their whole length has been checked. */
  method NumbersAt(b: seq<byte>, n: nat, k: nat, signed: bool) returns (ns: seq<int>)
    requires |b| >= n * k
    ensures ns == NumsAt(k, signed, n, b)
  {
    ns := [];
    for i := 0 to n
      invariant |ns| == i && ns == NumsAt(k, signed, n, b)[..i]
    {
      Ordered(i, n, k);
      var u, _ := TakeLE(b, i * k, k);
      ns := ns + [if signed then SignedFrom(u, k) else u];
    }
  }

  method ReadNumbers(b: seq<byte>, k: nat, signed: bool) returns (r: Read<seq<int>>)
    ensures !r.BadOrdinal? && (r.Truncated? ==> Decode(List(NumFmt(k, signed)), b) == Truncated)
    ensures r.Got? ==> Decode(List(NumFmt(k, signed)), b) == Got(Many(Vals(r.value, NumVal)), r.rest)
  {
    ghost var e := NumFmt(k, signed);
    ListDecode(e, b);
    hide Decode, DecodeAll, ReadCount, Vals, NumsAt, Chunks;
    var count := ReadCountOf(b);
    if !count.Got? { return Truncated; }
    var n, t := count.value, count.rest;
    BulkRead(e, n, t);
    assert Wide(e) == k;
    if |t| < n * k { return Truncated; }
    NumsAreChunks(k, signed, n, t);
    var ns := NumbersAt(t, n, k, signed);
    r := Got(ns, t[n * k..]);
  }

  lemma FlagsAreChunks(n: nat, b: seq<byte>, bs: seq<bool>)
    requires |b| >= n == |bs| && forall j | 0 <= j < n :: bs[j] == (b[j] != 0)
    ensures Chunks(Flag, n, b) == Vals(bs, BitVal)
  {
    forall i | 0 <= i < n ensures Chunks(Flag, n, b)[i] == Bit(bs[i]) {
      ChunkAt(Flag, n, b, i);
      hide Chunks;
    }
    hide Chunks;
  }

  method ReadFlags(b: seq<byte>) returns (r: Read<seq<bool>>)
    ensures !r.BadOrdinal? && (r.Truncated? ==> Decode(List(Flag), b) == Truncated)
    ensures r.Got? ==> Decode(List(Flag), b) == Got(Many(Vals(r.value, BitVal)), r.rest)
  {
    ListDecode(Flag, b);
    hide Decode, DecodeAll, ReadCount, Chunks, Vals;
    var count := ReadCountOf(b);
    if !count.Got? { return Truncated; }
    var n, t := count.value, count.rest;
    BulkRead(Flag, n, t);
    if |t| < n { return Truncated; }
    var bs: seq<bool> := [];
    for i := 0 to n
      invariant |bs| == i && forall j | 0 <= j < i :: bs[j] == (t[j] != 0)
    {
      bs := bs + [t[i] != 0];
    }
    FlagsAreChunks(n, t, bs);
    r := Got(bs, t[n..]);
  }

  lemma ByteAt(b: seq<byte>, i: nat)
    requires i < |b|
    ensures LeafAt(UInt(1), b[i..]) == Num(b[i])
  {
    OneByteBack(b[i]);
    assert b[i..][..1] == [b[i]];
  }

  lemma BytesAreChunks(n: nat, b: seq<byte>)
    requires |b| >= n
    ensures Chunks(UInt(1), n, b) == ByteVals(b[..n])
  {
    hide Chunks, FromLE, LeafAt;
    forall i | 0 <= i < n ensures Chunks(UInt(1), n, b)[i] == Num(b[i]) {
      ChunkAt(UInt(1), n, b, i);
      ByteAt(b, i);
    }
  }

  lemma BulkBytes(n: nat, b: seq<byte>)
    ensures DecodeAll(UInt(1), n, b) == if |b| < n then Truncated else Got(ByteVals(b[..n]), b[n..])
  {
    BulkRead(UInt(1), n, b);
    assert Wide(UInt(1)) == 1;
    hide Wide, DecodeAll, Chunks, ByteVals;
    if |b| >= n { BytesAreChunks(n, b); }
  }

  method ReadBytes(b: seq<byte>) returns (r: Read<seq<byte>>)
    ensures !r.BadOrdinal? && (r.Truncated? ==> Decode(List(UInt(1)), b) == Truncated)
    ensures r.Got? ==> Decode(List(UInt(1)), b) == Got(Many(ByteVals(r.value)), r.rest)
  {
    ListDecode(UInt(1), b);
    hide Decode, DecodeAll, ReadCount, ByteVals;
    var count := ReadCountOf(b);
    if !count.Got? { return Truncated; }
    var n, t := count.value, count.rest;
    BulkBytes(n, t);
    if |t| < n { return Truncated; }
    r := Got(t[..n], t[n..]);
  }

  /** The sign that readInt128 applies and the remap that takes it away again. */
  lemma Signed128(u: nat)
    requires u < Pow256(16)
    ensures SignedFrom(u, 16) == Int128.SignedOf(u) && Int128.Normalize(Int128.SignedOf(u)) == u
  {
    Int128.Pow256Values();
    hide Pow256;
  }

  lemma Int128Back(b: seq<byte>)
    requires |b| >= 16
    ensures Decode(SInt(16), b) == Got(Num(Int128.SignedOf(FromLE(b[..16]))), b[16..])
    ensures Decode(UInt(16), b) == Got(Num(Int128.Normalize(Int128.SignedOf(FromLE(b[..16])))), b[16..])
  {
    LEofFromLE(b[..16]);
    Signed128(FromLE(b[..16]));
    hide LE, FromLE, Pow256, SignedFrom, Int128.SignedOf, Int128.Normalize;
  }

  /** One 128-bit number. */
  method ReadInt128Of(b: seq<byte>) returns (r: Read<int>)
    ensures !r.BadOrdinal? && (r.Truncated? ==> Decode(SInt(16), b) == Truncated)
    ensures r.Got? ==> Decode(SInt(16), b) == Got(Num(r.value), r.rest)
    ensures !r.BadOrdinal? && (r.Truncated? ==> Decode(UInt(16), b) == Truncated)
    ensures r.Got? ==> Decode(UInt(16), b) == Got(Num(Int128.Normalize(r.value)), r.rest)
  {
    if |b| < 16 { return Truncated; }
    Int128Back(b);
    hide Decode, FromLE;
    var n := Int128.ReadInt128(b);
    r := Got(n.value.value, n.value.rest);
  }

  /** What the numbers stand for: unsigned ones have their sign taken away again. */
  function Remapped(ns: seq<int>, signed: bool): (r: seq<int>)
    ensures |r| == |ns| && forall i | 0 <= i < |ns| :: r[i] == if signed then ns[i] else Int128.Normalize(ns[i])
    ensures signed ==> r == ns
  {
    seq(|ns|, i requires 0 <= i < |ns| => if signed then ns[i] else Int128.Normalize(ns[i]))
  }

  /** A list of 128-bit numbers, read as signed ones. */
  method ReadInt128s(b: seq<byte>, ghost signed: bool) returns (r: Read<seq<int>>)
    ensures !r.BadOrdinal? && (r.Truncated? ==> Decode(List(NumFmt(16, signed)), b) == Truncated)
    ensures r.Got? ==> Decode(List(NumFmt(16, signed)), b) == Got(Many(Vals(Remapped(r.value, signed), NumVal)), r.rest)
  {
    ghost var e := NumFmt(16, signed);
    ListDecode(e, b);
    hide Decode, DecodeAll, ReadCount, AllTo, Vals, Int128.Normalize;
    var count := ReadCountOf(b);
    if !count.Got? { return Truncated; }
    var n, t := count.value, count.rest;
    AllStart(e, n, t);
    ghost var all := t;
    var ns: seq<int> := [];
    ghost var vals: seq<Val> := [];
    for i := 0 to n
      invariant |ns| == |vals| == i &&
                forall j | 0 <= j < i :: vals[j] == Num(if signed then ns[j] else Int128.Normalize(ns[j]))
      invariant AllTo(e, n, all, i, vals, t)
    {
      AllNext(e, n, all, i, vals, t);
      var x := ReadInt128Of(t);
      if !x.Got? { return Truncated; }
      ns := ns + [x.value];
      vals := vals + [Num(if signed then x.value else Int128.Normalize(x.value))];
      t := x.rest;
    }
    AllEnd(e, n, all, vals, t);
    assert vals == Vals(Remapped(ns, signed), NumVal);
    r := Got(ns, t);
  }

  /** normalizeCounters. */
  method NormalizeCounters(ns: seq<int>) returns (out: seq<int>)
    ensures out == Remapped(ns, false)
  {
    out := ns;
    for i := 0 to |ns|
      invariant |out| == |ns|
      invariant forall j | 0 <= j < |ns| :: out[j] == if j < i then Int128.Normalize(ns[j]) else ns[j]
    {
      if ns[i] < 0 {
        out := out[i := ns[i] + Int128.TWO128];
      }
    }
  }

  method ReadTexts(b: seq<byte>) returns (r: Read<seq<seq<byte>>>)
    ensures !r.BadOrdinal? && (r.Truncated? ==> Decode(List(Blob), b) == Truncated)
    ensures r.Got? ==> Decode(List(Blob), b) == Got(Many(Vals(r.value, TextVal)), r.rest)
  {
    ListDecode(Blob, b);
    hide Decode, DecodeAll, ReadCount, AllTo, Vals;
    var count := ReadCountOf(b);
    if !count.Got? { return Truncated; }
    var n, t := count.value, count.rest;
    AllStart(Blob, n, t);
    ghost var all := t;
    var ss: seq<seq<byte>> := [];
    ghost var vals: seq<Val> := [];
    for i := 0 to n
      invariant |ss| == |vals| == i && forall j | 0 <= j < i :: vals[j] == TextVal(ss[j])
      invariant AllTo(Blob, n, all, i, vals, t)
    {
      AllNext(Blob, n, all, i, vals, t);
      var s := ReadLenStr(t);
      if !s.Got? { return Truncated; }
      ss := ss + [s.value];
      vals := vals + [Text(s.value)];
      t := s.rest;
    }
    AllEnd(Blob, n, all, vals, t);
    assert vals == Vals(ss, TextVal);
    r := Got(ss, t);
  }

  method ReadAddresses(b: seq<byte>) returns (r: Read<seq<Address>>)
    ensures !r.BadOrdinal? && (r.Truncated? ==> Decode(List(ADDRESS), b) == Truncated)
    ensures r.Got? ==> Decode(List(ADDRESS), b) == Got(Many(Vals(r.value, AddressVal)), r.rest)
  {
    ListDecode(ADDRESS, b);
    hide Decode, DecodeAll, ReadCount, AllTo, Vals, AddressVal;
    var count := ReadCountOf(b);
    if !count.Got? { return Truncated; }
    var n, t := count.value, count.rest;
    AllStart(ADDRESS, n, t);
    ghost var all := t;
    var xs: seq<Address> := [];
    ghost var vals: seq<Val> := [];
    for i := 0 to n
      invariant |xs| == |vals| == i && forall j | 0 <= j < i :: vals[j] == AddressVal(xs[j])
      invariant AllTo(ADDRESS, n, all, i, vals, t)
    {
      AllNext(ADDRESS, n, all, i, vals, t);
      var a := ReadAddress(t);
      if a.Truncated? { return Truncated; }
      xs := xs + [a.value];
      vals := vals + [AddressVal(a.value)];
      t := a.rest;
    }
    AllEnd(ADDRESS, n, all, vals, t);
    assert vals == Vals(xs, AddressVal);
    r := Got(xs, t);
  }

  // ---- reading maps and optional values ------------------------------------

  lemma DictDecode(e: Fmt, b: seq<byte>)
    ensures ReadCount(b).Got? ==> Decode(Dict(e), b) == Lift(DecodeEntries(e, ReadCount(b).value, ReadCount(b).rest,
            map[]), m => Mapping(m))
    ensures !ReadCount(b).Got? ==> Decode(Dict(e), b) == Truncated
  {
  }

  lemma EntryNext(e: Fmt, n: nat, b: seq<byte>, m: map<seq<byte>, Val>)
    requires n > 0
    ensures match ReadBlob(b)
            case Got(k, t) =>
              (match Decode(e, t)
               case Got(v, u) => DecodeEntries(e, n, b, m) == DecodeEntries(e, n - 1, u, m[k := v])
               case Truncated => DecodeEntries(e, n, b, m) == Truncated
               case BadOrdinal => DecodeEntries(e, n, b, m) == BadOrdinal)
            case _ => DecodeEntries(e, n, b, m) == Truncated
  {
    hide Decode, ReadBlob;
  }

  lemma NoMoreEntries(e: Fmt, b: seq<byte>, m: map<seq<byte>, Val>)
    ensures DecodeEntries(e, 0, b, m) == Got(m, b)
  {
  }

  lemma OptionalDecode(e: Fmt, b: seq<byte>)
    ensures Decode(Optional(e), b) ==
            if |b| < 1 then Truncated else if b[0] == 0 then Got(Nothing, b[1..]) else Lift(Decode(e, b[1..]),
                v => Just(v))
  {
  }

  lemma MappedMore<T>(m: map<seq<byte>, T>, k: seq<byte>, x: T, f: T -> Val)
    ensures Mapped(m[k := x], f) == Mapped(m, f)[k := f(x)]
  {
  }

  method ReadCounts(b: seq<byte>) returns (r: Read<map<seq<byte>, int>>)
    ensures !r.BadOrdinal? && (r.Truncated? ==> Decode(Dict(UInt(8)), b) == Truncated)
    ensures r.Got? ==> Decode(Dict(UInt(8)), b) == Got(Mapping(Mapped(r.value, NumVal)), r.rest)
  {
    DictDecode(UInt(8), b);
    hide Decode, DecodeEntries, ReadCount, ReadBlob, Mapped;
    var count := ReadCountOf(b);
    if !count.Got? { return Truncated; }
    var n, t := count.value, count.rest;
    ghost var all := t;
    var m: map<seq<byte>, int> := map[];
    assert Mapped(m, NumVal) == map[];
    for i := 0 to n
      invariant DecodeEntries(UInt(8), n, all, map[]) == DecodeEntries(UInt(8), n - i, t, Mapped(m, NumVal))
    {
      EntryNext(UInt(8), n - i, t, Mapped(m, NumVal));
      var k := ReadLenStr(t);
      if !k.Got? { return Truncated; }
      var v := ReadUInt(k.rest, 8);
      if !v.Got? { return Truncated; }
      MappedMore(m, k.value, v.value, NumVal);
      m := m[k.value := v.value];
      t := v.rest;
    }
    NoMoreEntries(UInt(8), t, Mapped(m, NumVal));
    r := Got(m, t);
  }

  method ReadTextMap(b: seq<byte>) returns (r: Read<map<seq<byte>, seq<byte>>>)
    ensures !r.BadOrdinal? && (r.Truncated? ==> Decode(Dict(Blob), b) == Truncated)
    ensures r.Got? ==> Decode(Dict(Blob), b) == Got(Mapping(Mapped(r.value, TextVal)), r.rest)
  {
    DictDecode(Blob, b);
    hide Decode, DecodeEntries, ReadCount, ReadBlob, Mapped;
    var count := ReadCountOf(b);
    if !count.Got? { return Truncated; }
    var n, t := count.value, count.rest;
    ghost var all := t;
    var m: map<seq<byte>, seq<byte>> := map[];
    assert Mapped(m, TextVal) == map[];
    for i := 0 to n
      invariant DecodeEntries(Blob, n, all, map[]) == DecodeEntries(Blob, n - i, t, Mapped(m, TextVal))
    {
      EntryNext(Blob, n - i, t, Mapped(m, TextVal));
      var k := ReadLenStr(t);
      if !k.Got? { return Truncated; }
      var v := ReadLenStr(k.rest);
      if !v.Got? { return Truncated; }
      MappedMore(m, k.value, v.value, TextVal);
      m := m[k.value := v.value];
      t := v.rest;
    }
    NoMoreEntries(Blob, t, Mapped(m, TextVal));
    r := Got(m, t);
  }

  method ReadAddressMap(b: seq<byte>) returns (r: Read<map<seq<byte>, Address>>)
    ensures !r.BadOrdinal? && (r.Truncated? ==> Decode(Dict(ADDRESS), b) == Truncated)
    ensures r.Got? ==> Decode(Dict(ADDRESS), b) == Got(Mapping(Mapped(r.value, AddressVal)), r.rest)
  {
    DictDecode(ADDRESS, b);
    hide Decode, DecodeEntries, ReadCount, ReadBlob, Mapped, AddressVal;
    var count := ReadCountOf(b);
    if !count.Got? { return Truncated; }
    var n, t := count.value, count.rest;
    ghost var all := t;
    var m: map<seq<byte>, Address> := map[];
    assert Mapped(m, AddressVal) == map[];
    for i := 0 to n
      invariant DecodeEntries(ADDRESS, n, all, map[]) == DecodeEntries(ADDRESS, n - i, t, Mapped(m, AddressVal))
    {
      EntryNext(ADDRESS, n - i, t, Mapped(m, AddressVal));
      var k := ReadLenStr(t);
      if !k.Got? { return Truncated; }
      var v := ReadAddress(k.rest);
      if v.Truncated? { return Truncated; }
      MappedMore(m, k.value, v.value, AddressVal);
      m := m[k.value := v.value];
      t := v.rest;
    }
    NoMoreEntries(ADDRESS, t, Mapped(m, AddressVal));
    r := Got(m, t);
  }

  method ReadOptText(b: seq<byte>) returns (r: Read<Option<seq<byte>>>)
    ensures !r.BadOrdinal? && (r.Truncated? ==> Decode(Optional(Blob), b) == Truncated)
    ensures r.Got? ==> Decode(Optional(Blob), b) == Got(OptVal(r.value, TextVal), r.rest)
  {
    OptionalDecode(Blob, b);
    hide Decode;
    if |b| < 1 { return Truncated; }
    if b[0] == 0 { return Got(None, b[1..]); }
    var s := ReadLenStr(b[1..]);
    if !s.Got? { return Truncated; }
    r := Got(Some(s.value), s.rest);
  }

  // ---- a record, field by field --------------------------------------------

  /** The first `i` fields have been read, as the first `i` values of `vs`; `t` is left. */
  ghost predicate Filled(fs: seq<Fmt>, b: seq<byte>, vs: seq<Val>, i: nat, t: seq<byte>) {
    i <= |fs| == |vs| && ReadTo(fs, b, i, vs[..i], t)
  }

  lemma FillStart(fs: seq<Fmt>, b: seq<byte>, vs: seq<Val>)
    requires |vs| == |fs|
    ensures Filled(fs, b, vs, 0, b)
  {
    ReadStart(fs, b);
    assert vs[..0] == [];
  }

  /** Reading a field is good when it gives the field's new value and leaves the values
      before it alone; otherwise the record fails as the field does. */
  lemma FillNext(fs: seq<Fmt>, b: seq<byte>, vs: seq<Val>, i: nat, t: seq<byte>, ws: seq<Val>)
    requires Filled(fs, b, vs, i, t) && i < |fs| == |ws| && forall j | 0 <= j < i :: ws[j] == vs[j]
    ensures match Decode(fs[i], t)
            case Got(v, u) => v == ws[i] ==> Filled(fs, b, ws, i + 1, u)
            case Truncated => DecodeFields(fs, b) == Truncated
            case BadOrdinal => DecodeFields(fs, b) == BadOrdinal
  {
    hide Decode, DecodeFields, ReadTo;
    ReadNext(fs, b, i, vs[..i], t);
    assert ws[..i] == vs[..i];
    if Decode(fs[i], t).Got? && Decode(fs[i], t).value == ws[i] {
      assert ws[..i + 1] == vs[..i] + [ws[i]];
    }
  }

  lemma FillEnd(fs: seq<Fmt>, b: seq<byte>, vs: seq<Val>, t: seq<byte>)
    requires Filled(fs, b, vs, |fs|, t)
    ensures Decode(Record(fs), b) == Got(Fields(vs), t)
  {
    assert vs[..|fs|] == vs;
    ReadEnd(fs, b, vs, t);
  }

  lemma FillShort(fs: seq<Fmt>, b: seq<byte>, vs: seq<Val>, i: nat, t: seq<byte>, n: nat)
    requires Filled(fs, b, vs, i, t) && i + n < |fs| && forall f | f in fs[i..i + n] :: Plain(f)
    requires |t| < RunWidth(fs[i..i + n]) + AtLeast(fs[i + n])
    ensures DecodeFields(fs, b) == Truncated
  {
    RunShort(fs, b, i, vs[..i], t, n);
  }

  /** Field `i` reads as `v`. */
  lemma Fill(fs: seq<Fmt>, b: seq<byte>, vs: seq<Val>, i: nat, t: seq<byte>, v: Val, u: seq<byte>)
    returns (ws: seq<Val>)
    requires Filled(fs, b, vs, i, t) && i < |fs| == |vs| && Decode(fs[i], t) == Got(v, u)
    ensures ws == vs[i := v] && Filled(fs, b, ws, i + 1, u)
  {
    ws := vs[i := v];
    hide Decode, DecodeFields, Filled;
    FillNext(fs, b, vs, i, t, ws);
  }

  lemma FillFails(fs: seq<Fmt>, b: seq<byte>, vs: seq<Val>, i: nat, t: seq<byte>)
    requires Filled(fs, b, vs, i, t) && i < |fs|
    ensures Decode(fs[i], t) == Truncated ==> DecodeFields(fs, b) == Truncated
    ensures Decode(fs[i], t) == BadOrdinal ==> DecodeFields(fs, b) == BadOrdinal
  {
    hide Decode, DecodeFields, ReadTo;
    ReadNext(fs, b, i, vs[..i], t);
  }

  /** A number at its offset. */
  method NumAt(t: seq<byte>, off: nat, k: nat, signed: bool) returns (n: int)
    requires off + k <= |t|
    ensures Decode(NumFmt(k, signed), t[off..]) == Got(Num(n), t[off + k..])
  {
    var u, _ := TakeLE(t, off, k);
    n := if signed then SignedFrom(u, k) else u;
    assert t[off..][..k] == t[off..off + k] && t[off..][k..] == t[off + k..];
    hide FromLE;
  }

  lemma FlagAt(t: seq<byte>, off: nat)
    requires off < |t|
    ensures Decode(Flag, t[off..]) == Got(Bit(t[off] != 0), t[off + 1..])
  {
    assert t[off..][1..] == t[off + 1..];
  }

  lemma ByteFieldAt(t: seq<byte>, off: nat)
    requires off < |t|
    ensures Decode(UInt(1), t[off..]) == Got(Num(t[off]), t[off + 1..])
  {
    assert t[off..][1..] == t[off + 1..] && t[off..][..1] == [t[off]];
    OneByteBack(t[off]);
  }

  lemma FixedDecode(e: Fmt, n: nat, b: seq<byte>)
    requires Leaf(e)
    ensures Decode(Fixed(e, n), b) ==
            if |b| < n * Wide(e) then Truncated else Got(Many(Chunks(e, n, b)), b[n * Wide(e)..])
  {
    BulkRead(e, n, b);
    hide DecodeAll;
  }

  lemma FourDecode(t: seq<byte>)
    requires |t| >= 4
    ensures Decode(Fixed(UInt(1), 4), t) == Got(Many(ByteVals(t[..4])), t[4..])
  {
    FixedDecode(UInt(1), 4, t);
    assert Wide(UInt(1)) == 1;
    hide Decode, Chunks, ByteVals, Wide;
    BytesAreChunks(4, t);
  }

  lemma ThreeDecode(t: seq<byte>)
    requires |t| >= 6
    ensures Decode(Fixed(NumFmt(2, true), 3), t) == Got(Many(Vals(NumsAt(2, true, 3, t), NumVal)), t[6..])
  {
    FixedDecode(NumFmt(2, true), 3, t);
    assert Wide(NumFmt(2, true)) == 2;
    hide Decode, Chunks, NumsAt, Vals, Wide;
    NumsAreChunks(2, true, 3, t);
  }

  lemma ShortFour(t: seq<byte>)
    ensures |t| < 4 ==> Decode(Fixed(UInt(1), 4), t) == Truncated
  {
    FixedDecode(UInt(1), 4, t);
  }

  lemma ShortThree(t: seq<byte>)
    ensures |t| < 6 ==> Decode(Fixed(NumFmt(2, true), 3), t) == Truncated
  {
    FixedDecode(NumFmt(2, true), 3, t);
    assert Wide(NumFmt(2, true)) == 2;
  }

  lemma ShortFlag(t: seq<byte>)
    ensures |t| < 1 ==> Decode(Flag, t) == Truncated
  {
  }

  /** An optional number whose presence byte has been read. */
  method OptNumAfter(flag: byte, t: seq<byte>, k: nat) returns (r: Read<Option<int>>)
    ensures !r.BadOrdinal? && (r.Truncated? ==> Decode(Optional(UInt(k)), [flag] + t) == Truncated)
    ensures r.Got? ==> Decode(Optional(UInt(k)), [flag] + t) == Got(OptVal(r.value, NumVal), r.rest)
  {
    OptionalDecode(UInt(k), [flag] + t);
    assert ([flag] + t)[1..] == t;
    LeafDecode(UInt(k), t);
    hide Decode;
    if flag == 0 { return Got(None, t); }
    if |t| < k { return Truncated; }
    var u, _ := TakeLE(t, 0, k);
    assert t[0..0 + k] == t[..k];
    r := Got(Some(u), t[k..]);
  }

  /** An optional text whose presence byte has been read. */
  method OptTextAfter(flag: byte, t: seq<byte>) returns (r: Read<Option<seq<byte>>>)
    ensures !r.BadOrdinal? && (r.Truncated? ==> Decode(Optional(Blob), [flag] + t) == Truncated)
    ensures r.Got? ==> Decode(Optional(Blob), [flag] + t) == Got(OptVal(r.value, TextVal), r.rest)
  {
    OptionalDecode(Blob, [flag] + t);
    assert ([flag] + t)[1..] == t;
    hide Decode;
    if flag == 0 { return Got(None, t); }
    var s := ReadLenStr(t);
    if !s.Got? { return Truncated; }
    r := Got(Some(s.value), s.rest);
  }

  method ReadOptNum(b: seq<byte>, k: nat) returns (r: Read<Option<int>>)
    ensures !r.BadOrdinal? && (r.Truncated? ==> Decode(Optional(UInt(k)), b) == Truncated)
    ensures r.Got? ==> Decode(Optional(UInt(k)), b) == Got(OptVal(r.value, NumVal), r.rest)
  {
    OptionalDecode(UInt(k), b);
    hide Decode;
    if |b| < 1 { return Truncated; }
    if b[0] == 0 { return Got(None, b[1..]); }
    LeafDecode(UInt(k), b[1..]);
    if |b| < 1 + k { return Truncated; }
    var u, _ := TakeLE(b, 1, k);
    assert b[1..1 + k] == b[1..][..k] && b[1..][k..] == b[1 + k..];
    r := Got(Some(u), b[1 + k..]);
  }

  /** slices.Index. */
  function IndexOf(list: seq<string>, s: string): (i: int)
    ensures -1 <= i < |list| && (i >= 0 ==> list[i] == s) && (i < 0 ==> s !in list)
    ensures forall j | 0 <= j < |list| && (i < 0 || j < i) :: list[j] != s
  {
    if list == [] then -1
    else if list[0] == s then 0
    else
      var i := IndexOf(list[1..], s);
      if i < 0 then -1 else i + 1
  }

  lemma OrdinalDecode(n: nat, b: seq<byte>)
    ensures Decode(Enum(n), b) ==
            if |b| < 1 then Truncated else if b[0] >= n then BadOrdinal else Got(Tagged(b[0], Nothing), b[1..])
  {
  }

  lemma OrdinalEncode(n: nat, ord: nat)
    requires ord < n && ord < 256
    ensures Shaped(Enum(n), Tagged(ord, Nothing)) && Encode(Enum(n), Tagged(ord, Nothing)) == [ord]
  {
  }

  // ---- a record being written ----------------------------------------------

  /** The first `i` fields have been appended. */
  ghost predicate WroteFields(fs: seq<Fmt>, vs: seq<Val>, i: nat, buf: seq<byte>) {
    && i <= |fs| == |vs| && (forall j | 0 <= j < |fs| :: Shaped(fs[j], vs[j]))
    && WroteTo(fs, vs, [], i, buf)
  }

  lemma StartWriting(fs: seq<Fmt>, vs: seq<Val>)
    requires |fs| == |vs| && forall j | 0 <= j < |fs| :: Shaped(fs[j], vs[j])
    ensures WroteFields(fs, vs, 0, [])
  {
    hide Shaped, WroteTo;
    NothingWritten(fs, vs, []);
  }

  /** Appending the encoding of the next field is right. */
  lemma Next(fs: seq<Fmt>, vs: seq<Val>, i: nat, buf: seq<byte>)
    requires WroteFields(fs, vs, i, buf) && i < |fs| == |vs|
    ensures Shaped(fs[i], vs[i]) && WroteFields(fs, vs, i + 1, buf + Encode(fs[i], vs[i]))
  {
    hide Encode, Shaped, WroteTo;
    WriteNext(fs, vs, [], i, buf);
  }

  lemma Written(fs: seq<Fmt>, vs: seq<Val>, buf: seq<byte>)
    requires WroteFields(fs, vs, |fs|, buf)
    ensures Shaped(Record(fs), Fields(vs)) && buf == Encode(Record(fs), Fields(vs))
  {
    AllShaped(fs, vs);
    hide Encode, Shaped, WroteTo;
    WriteEnd(fs, vs, [], buf);
    assert [] + Encode(Record(fs), Fields(vs)) == Encode(Record(fs), Fields(vs));
  }

  // ---- there and back ------------------------------------------------------

  lemma {:induction false} MeaningsAt(vs: seq<Val>, i: nat)
    requires i < |vs|
    ensures Meanings(vs)[i] == Meaning(vs[i])
  {
    if i > 0 { MeaningsAt(vs[1..], i - 1); }
  }

  lemma FieldsMeaning(vs: seq<Val>)
    ensures Meaning(Fields(vs)) == Fields(Meanings(vs)) && Meaning(Many(vs)) == Many(Meanings(vs))
  {
  }

  lemma {:induction false} PlainMeanings(vs: seq<Val>)
    requires forall v | v in vs :: Meaning(v) == v
    ensures Meanings(vs) == vs
  {
    hide Meaning;
    if vs != [] {
      assert vs[0] in vs && forall v | v in vs[1..] :: v in vs;
      PlainMeanings(vs[1..]);
      assert vs == [vs[0]] + vs[1..];
    }
  }

  lemma MoneyMeaning(m: Money)
    ensures Meaning(MoneyVal(m)) == MoneyVal(m)
  {
    var vs := MoneyVal(m).values;
    PlainMeanings(vs);
  }

  lemma AddressMeaning(a: Address)
    ensures Meaning(AddressVal(a)) == AddressVal(a)
  {
    PlainMeanings(AddressVal(a).values);
  }

  lemma ManyMeaning(vs: seq<Val>)
    requires forall v | v in vs :: Meaning(v) == v
    ensures Meaning(Many(vs)) == Many(vs)
  {
    PlainMeanings(vs);
  }

  lemma NumbersMeaning(ns: seq<int>)
    ensures Meaning(Many(Vals(ns, NumVal))) == Many(Vals(ns, NumVal))
  {
    ManyMeaning(Vals(ns, NumVal));
  }

  lemma TextsMeaning(ss: seq<seq<byte>>)
    ensures Meaning(Many(Vals(ss, TextVal))) == Many(Vals(ss, TextVal))
  {
    ManyMeaning(Vals(ss, TextVal));
  }

  lemma FourMeaning(bs: Four)
    ensures Meaning(Many(ByteVals(bs))) == Many(ByteVals(bs))
  {
    ManyMeaning(ByteVals(bs));
  }

  lemma AddressesMeaning(xs: seq<Address>)
    ensures Meaning(Many(Vals(xs, AddressVal))) == Many(Vals(xs, AddressVal))
  {
    var vs := Vals(xs, AddressVal);
    hide Meaning, AddressVal;
    forall v | v in vs ensures Meaning(v) == v {
      var i :| 0 <= i < |xs| && vs[i] == v;
      AddressMeaning(xs[i]);
    }
    ManyMeaning(vs);
  }

  lemma ListedMeanings<T>(m: map<seq<byte>, T>, keys: seq<seq<byte>>, f: T -> Val)
    requires forall k | k in keys :: k in m && Meaning(f(m[k])) == f(m[k])
    ensures Meanings(Listed(m, keys, f)) == Listed(m, keys, f)
  {
    hide Meaning;
    var vs := Listed(m, keys, f);
    forall v | v in vs ensures Meaning(v) == v {
      var i :| 0 <= i < |keys| && vs[i] == v;
      assert keys[i] in keys;
    }
    PlainMeanings(vs);
  }

  lemma EntriesMeaning(keys: seq<seq<byte>>, vs: seq<Val>)
    requires |keys| == |vs|
    ensures Meaning(Entries(keys, vs)) == Mapping(MapFrom(map[], keys, Meanings(vs)))
  {
  }

  /** A listed map stands for its map. */
  lemma MapMeaning<T>(m: map<seq<byte>, T>, keys: seq<seq<byte>>, f: T -> Val)
    requires Lists(keys, m) && forall k | k in m :: Meaning(f(m[k])) == f(m[k])
    ensures (forall k | k in keys :: k in m) && Meaning(Entries(keys, Listed(m, keys, f))) == Mapping(Mapped(m, f))
  {
    hide Meaning, Meanings, MapFrom, AllDifferent;
    var vs := Listed(m, keys, f);
    ListedMeanings(m, keys, f);
    EntriesMeaning(keys, vs);
    forall i | 0 <= i < |keys| ensures vs[i] == Mapped(m, f)[keys[i]] { assert keys[i] in keys; }
    ListingBuilds(Mapped(m, f), keys, vs);
  }

  /** What was written reads back as what it stands for, and cut short it is short. */
  lemma RecordBack(fs: seq<Fmt>, vs: seq<Val>, ws: seq<Val>, n: nat)
    requires Shaped(Record(fs), Fields(vs)) && Fits(Record(fs), Fields(vs))
    requires |ws| == |vs| && forall i | 0 <= i < |vs| :: Meaning(vs[i]) == ws[i]
    ensures Decode(Record(fs), Encode(Record(fs), Fields(vs))) == Got(Fields(ws), [])
    ensures n < |Encode(Record(fs), Fields(vs))| ==>
              Decode(Record(fs), Encode(Record(fs), Fields(vs))[..n]) == Truncated
  {
    FieldsMeaning(vs);
    forall i | 0 <= i < |vs| ensures Meanings(vs)[i] == ws[i] { MeaningsAt(vs, i); }
    assert Meanings(vs) == ws;
    hide Encode, Decode, Shaped, Fits, Meaning, Meanings;
    var out := Encode(Record(fs), Fields(vs));
    DecodeUndoesEncode(Record(fs), Fields(vs), []);
    assert out + [] == out;
    if n < |out| { PrefixIsTruncated(Record(fs), Fields(vs), n); }
  }

  lemma RecordNotEmpty(fs: seq<Fmt>, vs: seq<Val>)
    requires fs != [] && (fs[0] == UInt(8) || fs[0] == UInt(4)) && Shaped(Record(fs), Fields(vs))
    ensures |Encode(Record(fs), Fields(vs))| > 0
  {
    assert EncodeFields(fs, vs) == Encode(fs[0], vs[0]) + EncodeFields(fs[1..], vs[1..]);
  }

  lemma SameNums(a: seq<int>, b: seq<int>)
    requires Vals(a, NumVal) == Vals(b, NumVal)
    ensures a == b
  {
    forall i | 0 <= i < |a| ensures a[i] == b[i] {
      assert Vals(a, NumVal)[i] == Vals(b, NumVal)[i];
    }
  }

  lemma SameBits(a: seq<bool>, b: seq<bool>)
    requires Vals(a, BitVal) == Vals(b, BitVal)
    ensures a == b
  {
    forall i | 0 <= i < |a| ensures a[i] == b[i] {
      assert Vals(a, BitVal)[i] == Vals(b, BitVal)[i];
    }
  }

  lemma SameTexts(a: seq<seq<byte>>, b: seq<seq<byte>>)
    requires Vals(a, TextVal) == Vals(b, TextVal)
    ensures a == b
  {
    forall i | 0 <= i < |a| ensures a[i] == b[i] {
      assert Vals(a, TextVal)[i] == Vals(b, TextVal)[i];
    }
  }

  lemma SameByteVals(a: seq<byte>, b: seq<byte>)
    requires ByteVals(a) == ByteVals(b)
    ensures a == b
  {
    forall i | 0 <= i < |a| ensures a[i] == b[i] {
      assert ByteVals(a)[i] == ByteVals(b)[i];
    }
  }

  lemma SameMoney(a: Money, b: Money)
    requires MoneyVal(a) == MoneyVal(b)
    ensures a == b
  {
    var x, y := MoneyVal(a).values, MoneyVal(b).values;
    assert x[0] == y[0] && x[1] == y[1];
  }

  lemma SameAddress(a: Address, b: Address)
    requires AddressVal(a) == AddressVal(b)
    ensures a == b
  {
    var x, y := AddressVal(a).values, AddressVal(b).values;
    assert x[0] == y[0] && x[1] == y[1] && x[2] == y[2] && x[3] == y[3] && x[4] == y[4];
  }

  lemma SameAddresses(a: seq<Address>, b: seq<Address>)
    requires Vals(a, AddressVal) == Vals(b, AddressVal)
    ensures a == b
  {
    hide AddressVal;
    forall i | 0 <= i < |a| ensures a[i] == b[i] {
      assert Vals(a, AddressVal)[i] == Vals(b, AddressVal)[i];
      SameAddress(a[i], b[i]);
    }
  }

  lemma SameMap<T>(a: map<seq<byte>, T>, b: map<seq<byte>, T>, f: T -> Val)
    requires Mapped(a, f) == Mapped(b, f)
    requires forall k | k in a && k in b && f(a[k]) == f(b[k]) :: a[k] == b[k]
    ensures a == b
  {
    assert a.Keys == Mapped(a, f).Keys == b.Keys;
    forall k | k in a ensures a[k] == b[k] {
      assert Mapped(a, f)[k] == Mapped(b, f)[k];
    }
  }
}
