/** The record layout the Go workers define for every other language
    (examples/appdata/go/wire.go), as a language of formats: every encoding reads back,
    and every strict prefix of one is reported as truncated. */
module Layout {
  import opened Common
  import opened LittleEndian

  /** A format. `Blob` is a string or bytes behind a length, `Fixed` a given number of
      values in a row, `Enum` an ordinal below `count`, `Sum` an ordinal and the payload
      of that variant. */
  datatype Fmt =
    | UInt(width: nat)
    | SInt(width: nat)
    | Flag
    | Blob
    | Optional(elem: Fmt)
    | List(elem: Fmt)
    | Dict(elem: Fmt)
    | Fixed(elem: Fmt, count: nat)
    | Record(fields: seq<Fmt>)
    | Enum(count: nat)
    | Sum(variants: seq<Fmt>)

  /** A value. A map being encoded is its entries in iteration order; a decoded one is
      a map. */
  datatype Val =
    | Num(n: int)
    | Bit(b: bool)
    | Text(bytes: seq<byte>)
    | Nothing
    | Just(v: Val)
    | Many(items: seq<Val>)
    | Entries(keys: seq<seq<byte>>, values: seq<Val>)
    | Mapping(entries: map<seq<byte>, Val>)
    | Fields(values: seq<Val>)
    | Tagged(tag: nat, payload: Val)

  datatype Read<+T> = Got(value: T, rest: seq<byte>) | Truncated | BadOrdinal

  const COUNT_LIMIT := 0x1_0000_0000

  // ---- encoding ------------------------------------------------------------

  function Residue(n: int, k: nat): (u: nat)
    ensures u < Pow256(k)
  {
    n % Pow256(k)
  }

  /** A u32 count or length; only its low 32 bits are written. */
  function Count(n: nat): (bs: seq<byte>)
    ensures |bs| == 4
  {
    LE(n, 4)
  }

  function Prefixed(bs: seq<byte>): seq<byte> { Count(|bs|) + bs }

  function Encode(f: Fmt, v: Val): seq<byte>
    requires Shaped(f, v)
    decreases v, 0
  {
    match f
    case UInt(k) => LE(Residue(v.n, k), k)
    case SInt(k) => LE(Residue(v.n, k), k)
    case Flag => [if v.b then 1 else 0]
    case Blob => Prefixed(v.bytes)
    case Optional(e) => if v.Nothing? then [0] else [1] + Encode(e, v.v)
    case List(e) => Count(|v.items|) + EncodeAll(e, v.items)
    case Dict(e) => Count(|v.keys|) + EncodeEntries(e, v.keys, v.values)
    case Fixed(e, _) => EncodeAll(e, v.items)
    case Record(fs) => EncodeFields(fs, v.values)
    case Enum(_) => [v.tag]
    case Sum(fs) => [v.tag] + Encode(fs[v.tag], v.payload)
  }

  function EncodeAll(e: Fmt, items: seq<Val>): seq<byte>
    requires forall i | i in items :: Shaped(e, i)
    decreases items, 1
  {
    if items == [] then [] else Encode(e, items[0]) + EncodeAll(e, items[1..])
  }

  function EncodeEntries(e: Fmt, keys: seq<seq<byte>>, values: seq<Val>): seq<byte>
    requires |keys| == |values| && forall i | i in values :: Shaped(e, i)
    decreases values, 1
  {
    if keys == [] then []
    else (Prefixed(keys[0]) + Encode(e, values[0])) + EncodeEntries(e, keys[1..], values[1..])
  }

  function EncodeFields(fs: seq<Fmt>, values: seq<Val>): seq<byte>
    requires |fs| == |values| && forall i | 0 <= i < |fs| :: Shaped(fs[i], values[i])
    decreases values, 1
  {
    if fs == [] then [] else Encode(fs[0], values[0]) + EncodeFields(fs[1..], values[1..])
  }

  /** The value is of the format's kind. */
  predicate Shaped(f: Fmt, v: Val)
    decreases v
  {
    match f
    case UInt(_) => v.Num?
    case SInt(_) => v.Num?
    case Flag => v.Bit?
    case Blob => v.Text?
    case Optional(e) => v.Nothing? || (v.Just? && Shaped(e, v.v))
    case List(e) => v.Many? && forall i | i in v.items :: Shaped(e, i)
    case Dict(e) => v.Entries? && |v.keys| == |v.values| && forall i | i in v.values :: Shaped(e, i)
    case Fixed(e, n) => v.Many? && |v.items| == n && forall i | i in v.items :: Shaped(e, i)
    case Record(fs) => v.Fields? && |v.values| == |fs| && forall i | 0 <= i < |fs| :: Shaped(fs[i], v.values[i])
    case Enum(n) => v.Tagged? && v.tag < n && v.tag < 256 && v.payload == Nothing
    case Sum(fs) => v.Tagged? && v.tag < |fs| && v.tag < 256 && Shaped(fs[v.tag], v.payload)
  }

  /** Numbers in range, lengths below 2^32. */
  predicate Fits(f: Fmt, v: Val)
    requires Shaped(f, v)
    decreases v
  {
    match f
    case UInt(k) => 0 <= v.n < Pow256(k)
    case SInt(k) => k > 0 && -(Pow256(k) / 2) <= v.n < Pow256(k) / 2
    case Blob => |v.bytes| < COUNT_LIMIT
    case Optional(e) => v.Just? ==> Fits(e, v.v)
    case List(e) => |v.items| < COUNT_LIMIT && forall i | i in v.items :: Fits(e, i)
    case Dict(e) =>
      && |v.keys| < COUNT_LIMIT && (forall k | k in v.keys :: |k| < COUNT_LIMIT)
      && forall i | i in v.values :: Fits(e, i)
    case Fixed(e, _) => forall i | i in v.items :: Fits(e, i)
    case Record(fs) => forall i | 0 <= i < |fs| :: Fits(fs[i], v.values[i])
    case Sum(fs) => Fits(fs[v.tag], v.payload)
    case _ => true
  }

  // ---- decoding ------------------------------------------------------------

  function SignedFrom(u: nat, k: nat): int { if u >= Pow256(k) / 2 && k > 0 then u - Pow256(k) else u }

  function ReadCount(b: seq<byte>): (r: Read<nat>)
    ensures r.Got? ==> |r.rest| < |b|
  {
    if |b| < 4 then Truncated else Got(FromLE(b[..4]), b[4..])
  }

  function ReadBlob(b: seq<byte>): (r: Read<seq<byte>>)
    ensures r.Got? ==> |r.rest| < |b|
  {
    match ReadCount(b)
    case Got(n, t) => if |t| < n then Truncated else Got(t[..n], t[n..])
    case _ => Truncated
  }

  function Decode(f: Fmt, b: seq<byte>): (r: Read<Val>)
    decreases f, 0, 0
  {
    match f
    case UInt(k) => if |b| < k then Truncated else Got(Num(FromLE(b[..k])), b[k..])
    case SInt(k) => if |b| < k then Truncated else Got(Num(SignedFrom(FromLE(b[..k]), k)), b[k..])
    case Flag => if |b| < 1 then Truncated else Got(Bit(b[0] != 0), b[1..])
    case Blob => (match ReadBlob(b) case Got(s, t) => Got(Text(s), t) case _ => Truncated)
    case Optional(e) =>
      if |b| < 1 then Truncated
      else if b[0] == 0 then Got(Nothing, b[1..])
      else
        (match Decode(e, b[1..])
         case Got(v, t) => Got(Just(v), t)
         case Truncated => Truncated
         case BadOrdinal => BadOrdinal)
    case List(e) =>
      (match ReadCount(b)
       case Got(n, t) =>
         (match DecodeAll(e, n, t)
          case Got(items, u) => Got(Many(items), u)
          case Truncated => Truncated
          case BadOrdinal => BadOrdinal)
       case _ => Truncated)
    case Dict(e) =>
      (match ReadCount(b)
       case Got(n, t) =>
         (match DecodeEntries(e, n, t, map[])
          case Got(m, u) => Got(Mapping(m), u)
          case Truncated => Truncated
          case BadOrdinal => BadOrdinal)
       case _ => Truncated)
    case Fixed(e, n) =>
      (match DecodeAll(e, n, b)
       case Got(items, u) => Got(Many(items), u)
       case Truncated => Truncated
       case BadOrdinal => BadOrdinal)
    case Record(fs) =>
      (match DecodeFields(fs, b)
       case Got(vs, u) => Got(Fields(vs), u)
       case Truncated => Truncated
       case BadOrdinal => BadOrdinal)
    case Enum(n) =>
      if |b| < 1 then Truncated else if b[0] >= n then BadOrdinal else Got(Tagged(b[0], Nothing), b[1..])
    case Sum(fs) =>
      if |b| < 1 then Truncated
      else if b[0] >= |fs| then BadOrdinal
      else
        var tag: nat := b[0];
        match Decode(fs[tag], b[1..])
        case Got(v, t) => Got(Tagged(tag, v), t)
        case Truncated => Truncated
        case BadOrdinal => BadOrdinal
  }

  function DecodeAll(e: Fmt, n: nat, b: seq<byte>): (r: Read<seq<Val>>)
    decreases e, 1, n
  {
    if n == 0 then Got([], b)
    else
      match Decode(e, b)
      case Truncated => Truncated
      case BadOrdinal => BadOrdinal
      case Got(v, t) =>
        match DecodeAll(e, n - 1, t)
        case Truncated => Truncated
        case BadOrdinal => BadOrdinal
        case Got(vs, u) => Got([v] + vs, u)
  }

  /** A repeated key keeps the last of its values. */
  function DecodeEntries(e: Fmt, n: nat, b: seq<byte>, m: map<seq<byte>, Val>): (r: Read<map<seq<byte>, Val>>)
    decreases e, 1, n
  {
    if n == 0 then Got(m, b)
    else
      match ReadBlob(b)
      case Got(k, t) =>
        (match Decode(e, t)
         case Truncated => Truncated
         case BadOrdinal => BadOrdinal
         case Got(v, u) => DecodeEntries(e, n - 1, u, m[k := v]))
      case _ => Truncated
  }

  function DecodeFields(fs: seq<Fmt>, b: seq<byte>): (r: Read<seq<Val>>)
    decreases fs, 1, 0
  {
    if fs == [] then Got([], b)
    else
      match Decode(fs[0], b)
      case Truncated => Truncated
      case BadOrdinal => BadOrdinal
      case Got(v, t) =>
        match DecodeFields(fs[1..], t)
        case Truncated => Truncated
        case BadOrdinal => BadOrdinal
        case Got(vs, u) => Got([v] + vs, u)
  }

  // ---- what an encoding stands for -----------------------------------------

  /** The map a decoder builds from these entries, on top of `m`. */
  function MapFrom(m: map<seq<byte>, Val>, keys: seq<seq<byte>>, values: seq<Val>): map<seq<byte>, Val>
    requires |keys| == |values|
    decreases |keys|
  {
    if keys == [] then m else MapFrom(m[keys[0] := values[0]], keys[1..], values[1..])
  }

  /** The value with every listing of entries turned into its map. */
  function Meaning(v: Val): Val
    decreases v, 0
  {
    match v
    case Just(w) => Just(Meaning(w))
    case Many(items) => Many(Meanings(items))
    case Entries(keys, values) => if |keys| == |values| then Mapping(MapFrom(map[], keys, Meanings(values))) else v
    case Fields(values) => Fields(Meanings(values))
    case Tagged(tag, payload) => Tagged(tag, Meaning(payload))
    case _ => v
  }

  function Meanings(vs: seq<Val>): (r: seq<Val>)
    ensures |r| == |vs|
    decreases vs, 1
  {
    if vs == [] then [] else [Meaning(vs[0])] + Meanings(vs[1..])
  }

  // ---- round trip ----------------------------------------------------------

  lemma Pow256Four()
    ensures Pow256(4) == COUNT_LIMIT
  {
    assert Pow256(2) == 0x1_0000;
  }

  lemma CountBack(n: nat, rest: seq<byte>)
    requires n < COUNT_LIMIT
    ensures ReadCount(Count(n) + rest) == Got(n, rest)
  {
    Pow256Four();
    FromLEofLE(n, 4);
    assert (Count(n) + rest)[..4] == Count(n) && (Count(n) + rest)[4..] == rest;
  }

  lemma BlobBack(bs: seq<byte>, rest: seq<byte>)
    requires |bs| < COUNT_LIMIT
    ensures ReadBlob(Prefixed(bs) + rest) == Got(bs, rest)
  {
    assert Prefixed(bs) + rest == Count(|bs|) + (bs + rest);
    CountBack(|bs|, bs + rest);
    assert (bs + rest)[..|bs|] == bs && (bs + rest)[|bs|..] == rest;
  }

  lemma ModSmall(n: int, p: int)
    requires 0 <= n < p
    ensures n % p == n
  {
  }

  lemma ModNegative(n: int, p: int)
    requires -p <= n < 0
    ensures n % p == n + p
  {
    ModSmall(n + p, p);
    assert n == (n + p) + p * -1;
  }

  lemma NumBack(n: int, k: nat)
    ensures 0 <= n < Pow256(k) ==> FromLE(LE(Residue(n, k), k)) == n
    ensures k > 0 && -(Pow256(k) / 2) <= n < Pow256(k) / 2 ==> SignedFrom(FromLE(LE(Residue(n, k), k)), k) == n
  {
    FromLEofLE(Residue(n, k), k);
    hide FromLE, LE;
    var p := Pow256(k);
    if k > 0 {
      assert p == 2 * (128 * Pow256(k - 1));
    }
    hide Pow256;
    if 0 <= n < p {
      ModSmall(n, p);
    } else if -p <= n < 0 {
      ModNegative(n, p);
    }
  }

  lemma LeafBack(f: Fmt, v: Val, rest: seq<byte>)
    requires Shaped(f, v) && Fits(f, v) && (f.UInt? || f.SInt? || f.Flag? || f.Blob? || f.Enum?)
    ensures Decode(f, Encode(f, v) + rest) == Got(Meaning(v), rest)
  {
    var bs := Encode(f, v);
    assert (bs + rest)[|bs|..] == rest && (bs + rest)[..|bs|] == bs;
    match f
    case UInt(k) => NumBack(v.n, k);
    case SInt(k) => NumBack(v.n, k);
    case Blob => BlobBack(v.bytes, rest);
    case _ =>
  }

  lemma OptionalBack(e: Fmt, v: Val, rest: seq<byte>)
    requires v.Nothing? || (v.Just? && Shaped(e, v.v) && Decode(e, Encode(e, v.v) + rest) == Got(Meaning(v.v), rest))
    ensures Decode(Optional(e), Encode(Optional(e), v) + rest) == Got(Meaning(v), rest)
  {
    var bs := Encode(Optional(e), v) + rest;
    if v.Just? {
      assert bs[1..] == Encode(e, v.v) + rest;
    } else {
      assert bs[1..] == rest;
    }
  }

  lemma ListBack(e: Fmt, v: Val, rest: seq<byte>)
    requires Shaped(List(e), v) && |v.items| < COUNT_LIMIT
    requires DecodeAll(e, |v.items|, EncodeAll(e, v.items) + rest) == Got(Meanings(v.items), rest)
    ensures Decode(List(e), Encode(List(e), v) + rest) == Got(Meaning(v), rest)
  {
    hide ReadCount, Count, DecodeAll, EncodeAll;
    CountBack(|v.items|, EncodeAll(e, v.items) + rest);
    assert Encode(List(e), v) + rest == Count(|v.items|) + (EncodeAll(e, v.items) + rest);
  }

  lemma DictBack(e: Fmt, v: Val, rest: seq<byte>)
    requires Shaped(Dict(e), v) && |v.keys| < COUNT_LIMIT
    requires DecodeEntries(e, |v.keys|, EncodeEntries(e, v.keys, v.values) + rest, map[]) ==
             Got(MapFrom(map[], v.keys, Meanings(v.values)), rest)
    ensures Decode(Dict(e), Encode(Dict(e), v) + rest) == Got(Meaning(v), rest)
  {
    hide ReadCount, Count, DecodeEntries, EncodeEntries, MapFrom;
    CountBack(|v.keys|, EncodeEntries(e, v.keys, v.values) + rest);
    assert Encode(Dict(e), v) + rest == Count(|v.keys|) + (EncodeEntries(e, v.keys, v.values) + rest);
  }

  lemma SumBack(fs: seq<Fmt>, v: Val, rest: seq<byte>)
    requires Shaped(Sum(fs), v)
    requires Decode(fs[v.tag], Encode(fs[v.tag], v.payload) + rest) == Got(Meaning(v.payload), rest)
    ensures Decode(Sum(fs), Encode(Sum(fs), v) + rest) == Got(Meaning(v), rest)
  {
    var bs := Encode(Sum(fs), v) + rest;
    assert bs[1..] == Encode(fs[v.tag], v.payload) + rest && bs[0] == v.tag;
  }

  /** Decoding an encoding gives the value back and stops right behind it, for every
      format, every value within the limits, every order of every map. */
  lemma {:induction false} DecodeUndoesEncode(f: Fmt, v: Val, rest: seq<byte>)
    requires Shaped(f, v) && Fits(f, v)
    ensures Decode(f, Encode(f, v) + rest) == Got(Meaning(v), rest)
    decreases v, 0
  {
    match f
    case Optional(e) =>
      hide Decode, Encode, Meaning;
      if v.Just? { DecodeUndoesEncode(e, v.v, rest); }
      OptionalBack(e, v, rest);
    case List(e) =>
      hide Decode, Encode, Meaning;
      AllBack(e, v.items, rest);
      ListBack(e, v, rest);
    case Dict(e) =>
      hide Decode, Encode, Meaning;
      EntriesBack(e, v.keys, v.values, rest, map[]);
      DictBack(e, v, rest);
    case Fixed(e, _) => AllBack(e, v.items, rest);
    case Record(fs) => FieldsBack(fs, v.values, rest);
    case Sum(fs) =>
      hide Decode, Encode, Meaning;
      DecodeUndoesEncode(fs[v.tag], v.payload, rest);
      SumBack(fs, v, rest);
    case _ =>
      hide Decode, Encode, Meaning;
      LeafBack(f, v, rest);
  }

  lemma {:induction false} AllBack(e: Fmt, items: seq<Val>, rest: seq<byte>)
    requires forall i | i in items :: Shaped(e, i) && Fits(e, i)
    ensures DecodeAll(e, |items|, EncodeAll(e, items) + rest) == Got(Meanings(items), rest)
    decreases items, 1
  {
    hide Decode, Encode, Meaning;
    if items == [] {
      assert EncodeAll(e, items) + rest == rest;
    } else {
      var tail := EncodeAll(e, items[1..]) + rest;
      assert EncodeAll(e, items) + rest == Encode(e, items[0]) + tail;
      assert items[0] in items && forall i | i in items[1..] :: i in items;
      DecodeUndoesEncode(e, items[0], tail);
      AllBack(e, items[1..], rest);
    }
  }

  lemma {:induction false} EntriesBack(e: Fmt, keys: seq<seq<byte>>, values: seq<Val>, rest: seq<byte>,
      m: map<seq<byte>, Val>)
    requires |keys| == |values| && (forall k | k in keys :: |k| < COUNT_LIMIT) &&
             forall i | i in values :: Shaped(e, i) && Fits(e, i)
    ensures DecodeEntries(e, |keys|, EncodeEntries(e, keys, values) + rest, m) ==
            Got(MapFrom(m, keys, Meanings(values)), rest)
    decreases values, 1
  {
    hide Decode, Encode, Meaning, ReadBlob, Prefixed, Fits, Shaped;
    if keys == [] {
      assert EncodeEntries(e, keys, values) + rest == rest;
    } else {
      var tail := EncodeEntries(e, keys[1..], values[1..]) + rest;
      var mid := Encode(e, values[0]) + tail;
      assert EncodeEntries(e, keys, values) + rest == Prefixed(keys[0]) + mid;
      assert values[0] in values && keys[0] in keys && (forall i | i in values[1..] :: i in values) &&
          forall k | k in keys[1..] :: k in keys;
      BlobBack(keys[0], mid);
      DecodeUndoesEncode(e, values[0], tail);
      EntriesBack(e, keys[1..], values[1..], rest, m[keys[0] := Meaning(values[0])]);
      assert Meanings(values)[1..] == Meanings(values[1..]);
    }
  }

  lemma {:induction false} FieldsBack(fs: seq<Fmt>, values: seq<Val>, rest: seq<byte>)
    requires |fs| == |values| && forall i | 0 <= i < |fs| :: Shaped(fs[i], values[i]) && Fits(fs[i], values[i])
    ensures DecodeFields(fs, EncodeFields(fs, values) + rest) == Got(Meanings(values), rest)
    decreases values, 1
  {
    hide Decode, Encode, Meaning;
    if fs == [] {
      assert EncodeFields(fs, values) + rest == rest;
    } else {
      var tail := EncodeFields(fs[1..], values[1..]) + rest;
      assert EncodeFields(fs, values) + rest == Encode(fs[0], values[0]) + tail;
      DecodeUndoesEncode(fs[0], values[0], tail);
      FieldsBack(fs[1..], values[1..], rest);
    }
  }

  // ---- truncation ----------------------------------------------------------

  /** A strict prefix of a concatenation is a strict prefix of the first part, or all
      of it and a strict prefix of the second. */
  lemma PrefixSplit(a: seq<byte>, b: seq<byte>, n: nat)
    requires n < |a + b|
    ensures n < |a| ==> (a + b)[..n] == a[..n]
    ensures n >= |a| ==> (a + b)[..n] == a + b[..n - |a|] && n - |a| < |b|
  {
  }

  lemma BlobCut(bs: seq<byte>, n: nat)
    requires |bs| < COUNT_LIMIT && n < |Prefixed(bs)|
    ensures ReadBlob(Prefixed(bs)[..n]) == Truncated
  {
    if n >= 4 {
      PrefixSplit(Count(|bs|), bs, n);
      CountBack(|bs|, bs[..n - 4]);
    }
  }

  /** Every strict prefix of an encoding is reported as truncated, never as a value and
      never as a bad ordinal. */
  lemma {:induction false} PrefixIsTruncated(f: Fmt, v: Val, n: nat)
    requires Shaped(f, v) && Fits(f, v) && n < |Encode(f, v)|
    ensures Decode(f, Encode(f, v)[..n]) == Truncated
    decreases v, 0
  {
    hide ReadCount, Count, FromLE, LE;
    var p := Encode(f, v)[..n];
    match f
    case Optional(e) =>
      if n > 0 && v.Just? {
        PrefixSplit([1], Encode(e, v.v), n);
        PrefixIsTruncated(e, v.v, n - 1);
        assert p[1..] == Encode(e, v.v)[..n - 1];
      }
    case List(e) =>
      CountThen(|v.items|, EncodeAll(e, v.items), n);
      if n >= 4 { AllCut(e, v.items, n - 4); }
    case Dict(e) =>
      CountThen(|v.keys|, EncodeEntries(e, v.keys, v.values), n);
      if n >= 4 { EntriesCut(e, v.keys, v.values, n - 4, map[]); }
    case Fixed(e, _) => AllCut(e, v.items, n);
    case Record(fs) => FieldsCut(fs, v.values, n);
    case Sum(fs) =>
      if n > 0 {
        PrefixSplit([v.tag], Encode(fs[v.tag], v.payload), n);
        PrefixIsTruncated(fs[v.tag], v.payload, n - 1);
        assert p[1..] == Encode(fs[v.tag], v.payload)[..n - 1];
      }
    case Blob => BlobCut(v.bytes, n);
    case _ =>
  }

  lemma CountThen(c: nat, body: seq<byte>, n: nat)
    requires c < COUNT_LIMIT && n < |Count(c) + body|
    ensures n < 4 ==> ReadCount((Count(c) + body)[..n]) == Truncated
    ensures n >= 4 ==> n - 4 < |body| && ReadCount((Count(c) + body)[..n]) == Got(c, body[..n - 4])
  {
    PrefixSplit(Count(c), body, n);
    if n >= 4 {
      CountBack(c, body[..n - 4]);
    }
  }

  lemma {:induction false} AllCut(e: Fmt, items: seq<Val>, n: nat)
    requires (forall i | i in items :: Shaped(e, i) && Fits(e, i)) && n < |EncodeAll(e, items)|
    ensures DecodeAll(e, |items|, EncodeAll(e, items)[..n]) == Truncated
    decreases items, 1
  {
    hide Decode, Encode, Fits, Shaped, Meaning;
    var a, b := Encode(e, items[0]), EncodeAll(e, items[1..]);
    assert items[0] in items && forall i | i in items[1..] :: i in items;
    PrefixSplit(a, b, n);
    if n < |a| {
      PrefixIsTruncated(e, items[0], n);
    } else {
      DecodeUndoesEncode(e, items[0], b[..n - |a|]);
      AllCut(e, items[1..], n - |a|);
    }
  }

  /** A strict prefix of an entry and what follows ends in the key, in the value or behind both. */
  lemma EntrySplit(k: seq<byte>, a: seq<byte>, b: seq<byte>, n: nat)
    requires n < |(k + a) + b|
    ensures n < |k| ==> ((k + a) + b)[..n] == k[..n]
    ensures |k| <= n < |k| + |a| ==> ((k + a) + b)[..n] == k + a[..n - |k|]
    ensures |k| + |a| <= n ==> n - |k| - |a| < |b| && ((k + a) + b)[..n] == k + (a + b[..n - |k| - |a|])
  {
  }

  lemma {:induction false} EntriesCut(e: Fmt, keys: seq<seq<byte>>, values: seq<Val>, n: nat, m: map<seq<byte>, Val>)
    requires |keys| == |values| && forall k | k in keys :: |k| < COUNT_LIMIT
    requires forall i | i in values :: Shaped(e, i) && Fits(e, i)
    requires n < |EncodeEntries(e, keys, values)|
    ensures DecodeEntries(e, |keys|, EncodeEntries(e, keys, values)[..n], m) == Truncated
    decreases values, 1
  {
    hide Decode, Encode, ReadBlob, Prefixed, Meaning, Fits, DecodeEntries, Shaped, Meanings, DecodeAll, EncodeAll;
    assert forall i | i in values[1..] :: i in values;
    assert values[0] in values && keys[0] in keys && forall j | j in keys[1..] :: j in keys;
    var k, a, b := Prefixed(keys[0]), Encode(e, values[0]), EncodeEntries(e, keys[1..], values[1..]);
    assert EncodeEntries(e, keys, values) == (k + a) + b;
    hide EncodeEntries;
    EntrySplit(k, a, b, n);
    if n < |k| {
      BlobCut(keys[0], n);
      EntryFails(e, |keys|, k[..n], [], m, []);
    } else if n < |k| + |a| {
      var t := a[..n - |k|];
      PrefixIsTruncated(e, values[0], n - |k|);
      BlobBack(keys[0], t);
      EntryFails(e, |keys|, k + t, t, m, keys[0]);
    } else {
      var u := b[..n - |k| - |a|];
      BlobBack(keys[0], a + u);
      DecodeUndoesEncode(e, values[0], u);
      EntriesCut(e, keys[1..], values[1..], |u|, m[keys[0] := Meaning(values[0])]);
      NextEntry(e, |keys|, k + (a + u), a + u, u, m, keys[0], Meaning(values[0]));
    }
  }

  lemma EntryFails(e: Fmt, n: nat, b: seq<byte>, t: seq<byte>, m: map<seq<byte>, Val>, k: seq<byte>)
    requires n > 0 && (ReadBlob(b) == Truncated || (ReadBlob(b) == Got(k, t) && Decode(e, t) == Truncated))
    ensures DecodeEntries(e, n, b, m) == Truncated
  {
    hide Decode, ReadBlob;
  }

  lemma NextEntry(e: Fmt, n: nat, b: seq<byte>, t: seq<byte>, u: seq<byte>, m: map<seq<byte>, Val>, k: seq<byte>,
      v: Val)
    requires n > 0 && ReadBlob(b) == Got(k, t) && Decode(e, t) == Got(v, u)
    ensures DecodeEntries(e, n, b, m) == DecodeEntries(e, n - 1, u, m[k := v])
  {
    hide Decode, ReadBlob;
  }

  lemma {:induction false} FieldsCut(fs: seq<Fmt>, values: seq<Val>, n: nat)
    requires |fs| == |values| && forall i | 0 <= i < |fs| :: Shaped(fs[i], values[i]) && Fits(fs[i], values[i])
    requires n < |EncodeFields(fs, values)|
    ensures DecodeFields(fs, EncodeFields(fs, values)[..n]) == Truncated
    decreases values, 1
  {
    hide Decode, Encode, Meaning;
    var a, b := Encode(fs[0], values[0]), EncodeFields(fs[1..], values[1..]);
    PrefixSplit(a, b, n);
    if n < |a| {
      PrefixIsTruncated(fs[0], values[0], n);
    } else {
      DecodeUndoesEncode(fs[0], values[0], b[..n - |a|]);
      FieldsCut(fs[1..], values[1..], n - |a|);
    }
  }

  // ---- map order -----------------------------------------------------------

  lemma {:induction false} MapFromHolds(m: map<seq<byte>, Val>, keys: seq<seq<byte>>, values: seq<Val>)
    requires |keys| == |values| && AllDifferent(keys)
    ensures forall k :: k in MapFrom(m, keys, values) <==> k in m || k in keys
    ensures forall i | 0 <= i < |keys| :: MapFrom(m, keys, values)[keys[i]] == values[i]
    ensures forall k | k in m && k !in keys :: MapFrom(m, keys, values)[k] == m[k]
    decreases |keys|
  {
    if keys != [] {
      var m2 := m[keys[0] := values[0]];
      MapFromHolds(m2, keys[1..], values[1..]);
      assert keys[0] !in keys[1..];
      forall i | 0 <= i < |keys| ensures MapFrom(m, keys, values)[keys[i]] == values[i] {
        if i > 0 {
          assert keys[1..][i - 1] == keys[i] && values[1..][i - 1] == values[i];
        }
      }
      assert forall k :: k in keys <==> k == keys[0] || k in keys[1..];
    }
  }

  /** A listing of a map, in any order, builds that map. */
  lemma ListingBuilds(m: map<seq<byte>, Val>, keys: seq<seq<byte>>, values: seq<Val>)
    requires |keys| == |values| && AllDifferent(keys) && forall k :: k in keys <==> k in m
    requires forall i | 0 <= i < |keys| :: values[i] == m[keys[i]]
    ensures MapFrom(map[], keys, values) == m
  {
    MapFromHolds(map[], keys, values);
    hide MapFrom;
    var built := MapFrom(map[], keys, values);
    forall k | k in m ensures k in built && built[k] == m[k] {
      var i :| 0 <= i < |keys| && keys[i] == k;
    }
  }

  /** Any two iteration orders of one map decode to the same map. */
  lemma OrderIsIrrelevant(keys: seq<seq<byte>>, values: seq<Val>, keys2: seq<seq<byte>>, values2: seq<Val>)
    requires |keys| == |values| && |keys2| == |values2| && AllDifferent(keys) && AllDifferent(keys2)
    requires forall k :: k in keys <==> k in keys2
    requires forall i, j | 0 <= i < |keys| && 0 <= j < |keys2| && keys[i] == keys2[j] :: values[i] == values2[j]
    ensures MapFrom(map[], keys, values) == MapFrom(map[], keys2, values2)
  {
    MapFromHolds(map[], keys, values);
    MapFromHolds(map[], keys2, values2);
    var a, b := MapFrom(map[], keys, values), MapFrom(map[], keys2, values2);
    forall k | k in a ensures a[k] == b[k] {
      var i :| 0 <= i < |keys| && keys[i] == k;
      var j :| 0 <= j < |keys2| && keys2[j] == k;
    }
  }
}
