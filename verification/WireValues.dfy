/** The values that travel between runner and worker: hex text, JSON documents,
    case data as authored, and the values a worker's field map stores. */
module WireValues {
  import opened Common
  import opened Text
  import opened TypeLang

  // ---- hex -----------------------------------------------------------------

  function HexDigit(d: int): (c: char)
    requires 0 <= d < 16
    ensures NibbleOf(c) == Some(d) && IsLowerHexDigit(c)
  {
    if d < 10 then '0' + d as char else 'a' + (d - 10) as char
  }

  predicate IsLowerHexDigit(c: char) { '0' <= c <= '9' || 'a' <= c <= 'f' }

  /** The value of a hex digit of either case. */
  function NibbleOf(c: char): (d: Option<int>)
    ensures d.Some? ==> 0 <= d.value < 16
  {
    if '0' <= c <= '9' then Some(c as int - '0' as int)
    else if 'a' <= c <= 'f' then Some(c as int - 'a' as int + 10)
    else if 'A' <= c <= 'F' then Some(c as int - 'A' as int + 10)
    else None
  }

  /** hex.EncodeToString: two lower-case digits a byte. */
  function HexEncode(bs: seq<byte>): (s: string)
    ensures |s| == 2 * |bs|
  {
    if bs == [] then "" else [HexDigit(bs[0] / 16), HexDigit(bs[0] % 16)] + HexEncode(bs[1..])
  }

  /** hex.DecodeString. */
  function HexDecode(s: string): (bs: Option<seq<byte>>)
    ensures bs.Some? ==> |s| == 2 * |bs.value|
  {
    if s == "" then Some([])
    else if |s| == 1 then None
    else
      var hi, lo, rest := NibbleOf(s[0]), NibbleOf(s[1]), HexDecode(s[2..]);
      if hi.None? || lo.None? || rest.None? then None else Some([16 * hi.value + lo.value] + rest.value)
  }

  predicate LowerHex(s: string) {
    |s| % 2 == 0 && forall i | 0 <= i < |s| :: IsLowerHexDigit(s[i])
  }

  lemma {:induction false} HexRoundTrip(bs: seq<byte>)
    ensures HexDecode(HexEncode(bs)) == Some(bs)
  {
    if bs != [] {
      HexRoundTrip(bs[1..]);
      assert HexEncode(bs)[2..] == HexEncode(bs[1..]);
      assert bs == [bs[0]] + bs[1..];
    }
  }

  lemma HexDigitBack(c: char)
    requires NibbleOf(c).Some?
    ensures HexDigit(NibbleOf(c).value) == c <==> IsLowerHexDigit(c)
  {
  }

  predicate HexSurvives(s: string) {
    HexDecode(s).Some? && HexEncode(HexDecode(s).value) == s
  }

  lemma HexEncodePair(hi: int, lo: int, rest: seq<byte>)
    requires 0 <= hi < 16 && 0 <= lo < 16
    ensures HexEncode([16 * hi + lo] + rest) == [HexDigit(hi), HexDigit(lo)] + HexEncode(rest)
  {
    assert ([16 * hi + lo] + rest)[1..] == rest;
  }

  lemma HexDecodePair(s: string)
    requires |s| >= 2
    ensures HexDecode(s).Some? <==> NibbleOf(s[0]).Some? && NibbleOf(s[1]).Some? && HexDecode(s[2..]).Some?
    ensures HexDecode(s).Some? ==>
            HexDecode(s).value == [16 * NibbleOf(s[0]).value + NibbleOf(s[1]).value] + HexDecode(s[2..]).value
  {
    hide NibbleOf;
  }

  lemma PairsEqual(s: string, a: char, b: char, t: string)
    requires |s| >= 2
    ensures [a, b] + t == s <==> s[0] == a && s[1] == b && s[2..] == t
  {
    assert s == [s[0], s[1]] + s[2..];
    assert ([a, b] + t)[2..] == t;
  }

  lemma HexSurvivesStep(s: string)
    requires |s| >= 2
    ensures HexSurvives(s) <==> IsLowerHexDigit(s[0]) && IsLowerHexDigit(s[1]) && HexSurvives(s[2..])
  {
    hide HexDecode, HexEncode, HexDigit;
    HexDecodePair(s);
    if HexDecode(s).Some? {
      var hi, lo, rest := NibbleOf(s[0]).value, NibbleOf(s[1]).value, HexDecode(s[2..]).value;
      hide NibbleOf, IsLowerHexDigit;
      HexDigitBack(s[0]);
      HexDigitBack(s[1]);
      HexEncodePair(hi, lo, rest);
      PairsEqual(s, HexDigit(hi), HexDigit(lo), HexEncode(rest));
    }
  }

  lemma LowerHexStep(s: string)
    requires |s| >= 2
    ensures LowerHex(s) <==> IsLowerHexDigit(s[0]) && IsLowerHexDigit(s[1]) && LowerHex(s[2..])
  {
    var rest := s[2..];
    assert forall i | 0 <= i < |rest| :: rest[i] == s[i + 2];
    assert forall i | 2 <= i < |s| :: s[i] == rest[i - 2];
  }

  /** Hex text survives decoding and encoding again exactly when it is of even
      length and lower case throughout. */
  lemma {:induction false} HexTextSurvives(s: string)
    ensures HexSurvives(s) <==> LowerHex(s)
  {
    if |s| >= 2 {
      HexTextSurvives(s[2..]);
      HexSurvivesStep(s);
      hide HexSurvives;
      LowerHexStep(s);
    }
  }

  // ---- JSON and authored values --------------------------------------------

  datatype J =
    | JNull
    | JBool(b: bool)
    | JNum(x: real)
    | JStr(s: string)
    | JArr(items: seq<J>)
    | JObj(members: map<string, J>)

  /** A case value as the YAML loader leaves it; `name` tells the non-finite floats apart. */
  datatype Auth =
    | ANull
    | ABool(b: bool)
    | AInt(n: int)
    | AFloat(x: real)
    | ANonFinite(name: string)
    | AStr(s: string)
    | AList(items: seq<Auth>)
    | AMap(entries: map<string, Auth>)

  /** json.Marshal of an authored value passed through as it is; non-finite floats
      have no JSON form. */
  function ToJson(a: Auth): Option<J>
    decreases a
  {
    match a
    case ANull => Some(JNull)
    case ABool(b) => Some(JBool(b))
    case AInt(n) => Some(JNum(n as real))
    case AFloat(x) => Some(JNum(x))
    case ANonFinite(_) => None
    case AStr(s) => Some(JStr(s))
    case AList(items) =>
      if forall i | 0 <= i < |items| :: ToJson(items[i]).Some?
      then Some(JArr(seq(|items|, i requires 0 <= i < |items| && ToJson(items[i]).Some? => ToJson(items[i]).value)))
      else None
    case AMap(entries) =>
      if forall k | k in entries :: ToJson(entries[k]).Some?
      then Some(JObj(map k | k in entries :: ToJson(entries[k]).value))
      else None
  }

  // ---- what a field map stores ---------------------------------------------

  /** The element types a list, optional or map value may have on the worker. */
  datatype Elem = EKind(kind: Kind) | EStruct

  datatype V =
    | VNil
    | VBool(b: bool)
    | VInt(kind: Kind, n: int)
    | VBig(n: int)
    | VFloat(wide: bool, bits: seq<byte>)
    | VStr(s: string)
    | VBytes(bs: seq<byte>)
    | VMessage(fields: map<string, V>)
    | VSlice(elem: Elem, items: seq<V>)
    | VDict(entries: map<string, V>)
    | VVariant(tag: string, value: V)

  predicate SmallInt(k: Kind) {
    k in {Uint8, Uint16, Uint32, Int8, Int16, Int32}
  }

  predicate TextInt(k: Kind) {
    k in {Uint64, Int64, Uint128, Int128}
  }

  /** The least value of an integer kind. */
  function Least(k: Kind): int {
    match k
    case Int8 => -0x80 case Int16 => -0x8000 case Int32 => -0x8000_0000
    case Int64 => -0x8000_0000_0000_0000
    case Int128 => -0x8000_0000_0000_0000_0000_0000_0000_0000
    case _ => 0
  }

  function Greatest(k: Kind): int {
    match k
    case Uint8 => 0xFF case Uint16 => 0xFFFF case Uint32 => 0xFFFF_FFFF
    case Int8 => 0x7F case Int16 => 0x7FFF case Int32 => 0x7FFF_FFFF
    case Uint64 => 0xFFFF_FFFF_FFFF_FFFF case Int64 => 0x7FFF_FFFF_FFFF_FFFF
    case Uint128 => 0xFFFF_FFFF_FFFF_FFFF_FFFF_FFFF_FFFF_FFFF
    case Int128 => 0x7FFF_FFFF_FFFF_FFFF_FFFF_FFFF_FFFF_FFFF
    case _ => 0
  }

  predicate InRange(k: Kind, n: int) { Least(k) <= n <= Greatest(k) }

  /** The conversions that belong to Go and its libraries: a number or numeric text
      as IEEE 754 little-endian bytes, %v formatting, the value an out-of-range float
      converts to, and what the JSON library makes of a stored composite. */
  datatype Foreign = Foreign(
    floatBytes: (Auth, bool) -> Option<seq<byte>>,
    format: Auth -> string,
    overflow: (Kind, real) -> int,
    json: V -> Option<J>)

  ghost predicate Lawful(x: Foreign) {
    && (forall a, wide | x.floatBytes(a, wide).Some? :: |x.floatBytes(a, wide).value| == if wide then 8 else 4)
    && (forall n :: x.format(AInt(n)) == IntText(n))
    && (forall s :: x.format(AStr(s)) == s)
    && (forall k, r :: InRange(k, x.overflow(k, r)))
  }

  /** Truncation toward zero. */
  function Truncate(r: real): int {
    if r >= 0.0 then r.Floor else -((-r).Floor)
  }

  /** T(x) for a small integer type T. */
  function ConvertTo(x: Foreign, k: Kind, r: real): int {
    if InRange(k, Truncate(r)) then Truncate(r) else x.overflow(k, r)
  }

  /** The real number is a whole one that the kind holds. */
  predicate WholeIn(k: Kind, r: real) {
    r.Floor as real == r && InRange(k, r.Floor)
  }

  lemma TruncateWhole(r: real, n: int)
    requires n as real == r
    ensures Truncate(r) == n && r.Floor == n
  {
  }

  lemma ConvertedInRange(x: Foreign, k: Kind, r: real)
    requires Lawful(x)
    ensures InRange(k, ConvertTo(x, k, r))
    ensures ConvertTo(x, k, r) as real == r <==> WholeIn(k, r)
  {
    hide InRange, Truncate;
    var n := ConvertTo(x, k, r);
    if n as real == r {
      TruncateWhole(r, n);
    } else if r.Floor as real == r {
      TruncateWhole(r, r.Floor);
    }
  }
}
