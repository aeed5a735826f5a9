/** 128-bit integers as bytes and as decimal text: the Go worker (ledger.go,
    signals.go), the C++ one (wire.hpp, serify.hpp) and the PHP one (wire.php) against
    one definition. */
module Int128 {
  import opened Common
  import opened LittleEndian
  import opened Text

  const TWO127 := 0x8000_0000_0000_0000_0000_0000_0000_0000
  const TWO128 := 0x1_0000_0000_0000_0000_0000_0000_0000_0000

  predicate Signed(n: int) { -TWO127 <= n < TWO127 }

  predicate Unsigned(n: int) { 0 <= n < TWO128 }

  // ---- bytes ---------------------------------------------------------------

  lemma Pow256Values()
    ensures Pow256(16) == TWO128
  {
    assert Pow256(2) == 0x1_0000;
    assert Pow256(4) == 0x1_0000_0000;
    assert Pow256(8) == 0x1_0000_0000_0000_0000;
    assert Pow256(10) == 0x1_0000_0000_0000_0000_0000;
    assert Pow256(12) == 0x1_0000_0000_0000_0000_0000_0000;
    assert Pow256(14) == 0x1_0000_0000_0000_0000_0000_0000_0000;
  }

  /** big.Int.Bytes: big-endian, no leading zeros. */
  function BigBytes(u: nat): (bs: seq<byte>)
    ensures u > 0 ==> bs != []
  {
    if u == 0 then [] else BigBytes(u / 256) + [u % 256]
  }

  function Reverse(bs: seq<byte>): (r: seq<byte>)
    ensures |r| == |bs| && forall i | 0 <= i < |bs| :: r[i] == bs[|bs| - 1 - i]
  {
    seq(|bs|, i requires 0 <= i < |bs| => bs[|bs| - 1 - i])
  }

  function Zeros(n: nat): (z: seq<byte>)
    ensures |z| == n && forall i | 0 <= i < n :: z[i] == 0
  {
    seq(n, i => 0)
  }

  lemma {:induction false} ZerosAreLE(k: nat)
    ensures LE(0, k) == Zeros(k)
  {
    if k > 0 {
      ZerosAreLE(k - 1);
    }
  }

  /** Minimal bytes, reversed and padded, are the fixed-width little-endian ones. */
  lemma PadStep(be: seq<byte>, b: byte, k: nat)
    requires |be| < k
    ensures Reverse(be + [b]) + Zeros(k - |be| - 1) == [b] + (Reverse(be) + Zeros(k - 1 - |be|))
  {
  }

  lemma {:induction false} PaddedBytes(u: nat, k: nat)
    requires u < Pow256(k)
    ensures |BigBytes(u)| <= k && LE(u, k) == Reverse(BigBytes(u)) + Zeros(k - |BigBytes(u)|)
  {
    if u == 0 {
      ZerosAreLE(k);
    } else {
      assert k > 0 && LE(u, k) == [u % 256] + LE(u / 256, k - 1);
      PaddedBytes(u / 256, k - 1);
      hide Reverse, Zeros, LE, Pow256;
      PadStep(BigBytes(u / 256), u % 256, k);
    }
  }

  // ---- two's complement ----------------------------------------------------

  /** The 16 bytes all three workers must produce. */
  function Bytes128(n: int): (bs: seq<byte>)
    ensures |bs| == 16
  {
    LE(n % TWO128, 16)
  }

  function SignedOf(u: int): int { if u >= TWO127 then u - TWO128 else u }

  /** appendInt128: the residue's bytes written backwards into 16 zeros. */
  method AppendInt128(buf: seq<byte>, n: Option<int>) returns (out: seq<byte>)
    ensures out == buf + Bytes128(if n.Some? then n.value else 0)
  {
    var u := (if n.Some? then n.value else 0) % TWO128;
    var be := BigBytes(u);
    Pow256Values();
    PaddedBytes(u, 16);
    var arr := new byte[16](_ => 0);
    for i := 0 to |be|
      invariant forall j | 0 <= j < 16 :: arr[j] == if |be| - i <= j < |be| then be[|be| - 1 - j] else 0
    {
      arr[|be| - 1 - i] := be[i];
    }
    assert arr[..] == Reverse(be) + Zeros(16 - |be|);
    out := buf + arr[..];
  }

  function FromBE(bs: seq<byte>): nat {
    if bs == [] then 0 else 256 * FromBE(bs[..|bs| - 1]) + bs[|bs| - 1]
  }

  lemma {:induction false} FromReversed(bs: seq<byte>)
    ensures FromBE(Reverse(bs)) == FromLE(bs)
  {
    if bs != [] {
      var r := Reverse(bs);
      assert r[..|r| - 1] == Reverse(bs[1..]) && r[|r| - 1] == bs[0];
      FromReversed(bs[1..]);
    }
  }

  datatype Read<T> = Read(value: T, rest: seq<byte>)

  /** readInt128: bytes reversed, read as a big-endian number, the sign re-applied. */
  method ReadInt128(b: seq<byte>) returns (r: Option<Read<int>>)
    ensures r.None? <==> |b| < 16
    ensures r.Some? ==> r.value == Read(SignedOf(FromLE(b[..16])), b[16..])
  {
    hide FromBE, FromLE, Reverse, SignedOf;
    if |b| < 16 { return None; }
    var be := new byte[16](_ => 0);
    for i := 0 to 16
      invariant forall j | 0 <= j < 16 :: be[j] == if j >= 16 - i then b[15 - j] else 0
    {
      be[15 - i] := b[i];
    }
    assert be[..] == Reverse(b[..16]);
    FromReversed(b[..16]);
    var n: int := FromBE(be[..]);
    SignBit(b[..16]);
    if n / TWO127 % 2 == 1 {
      n := n - TWO128;
    }
    r := Some(Read(n, b[16..]));
  }

  /** Bit 127 tells the sign. */
  lemma SignBit(bs: seq<byte>)
    requires |bs| == 16
    ensures var u: int := FromLE(bs);
            SignedOf(u) == if u / TWO127 % 2 == 1 then u - TWO128 else u
  {
    hide FromLE;
    LEofFromLE(bs);
    Pow256Values();
    var u: int := FromLE(bs);
    hide Pow256;
    assert u < TWO128;
    if u >= TWO127 { assert u / TWO127 == 1; } else { assert u / TWO127 == 0; }
  }

  /** gmp_export, least significant first: the minimal bytes. */
  function Export(u: nat): seq<byte> {
    if u == 0 then [] else [u % 256] + Export(u / 256)
  }

  /** encodeInt for `k` bytes. */
  function EncodeInt(n: int, k: nat): seq<byte> {
    var le := Export(n % Pow256(k));
    if |le| < k then le + Zeros(k - |le|) else le
  }

  lemma {:induction false} ExportPadded(u: nat, k: nat)
    requires u < Pow256(k)
    ensures |Export(u)| <= k && Export(u) + Zeros(k - |Export(u)|) == LE(u, k)
  {
    if u == 0 {
      ZerosAreLE(k);
    } else {
      ExportPadded(u / 256, k - 1);
    }
  }

  /** decodeSigned: the top bit of the top byte decides. */
  function DecodeSigned(bs: seq<byte>): int {
    if bs == [] then 0
    else
      var n := FromLE(bs);
      if n / (Pow256(|bs|) / 2) % 2 == 1 then n - Pow256(|bs|) else n
  }

  /** All three workers write the same 16 bytes for every integer. */
  lemma SameBytes(n: int)
    ensures EncodeInt(n, 16) == Bytes128(n)
  {
    Pow256Values();
    ExportPadded(n % TWO128, 16);
    assert Zeros(0) == [];
    assert Export(n % TWO128) + [] == Export(n % TWO128);
  }

  /** The bytes read back as the number exactly on the signed range; PHP reads what Go
      and C++ do. */
  lemma SignedRoundTrip(n: int)
    ensures SignedOf(FromLE(Bytes128(n))) == n <==> Signed(n)
    ensures DecodeSigned(Bytes128(n)) == SignedOf(FromLE(Bytes128(n)))
  {
    Pow256Values();
    FromLEofLE(n % TWO128, 16);
  }

  /** normalizeCounters on one counter. */
  function Normalize(n: int): int { if n < 0 then n + TWO128 else n }

  /** With the remap the same bytes carry the whole unsigned range. */
  lemma UnsignedRoundTrip(n: int)
    ensures Normalize(SignedOf(FromLE(Bytes128(n)))) == n <==> Unsigned(n)
  {
    Pow256Values();
    FromLEofLE(n % TWO128, 16);
  }

  lemma SignedResidue(u: nat)
    requires Unsigned(u)
    ensures Signed(SignedOf(u)) && SignedOf(u) % TWO128 == u
  {
    if u >= TWO127 {
      assert u - TWO128 == u + TWO128 * -1;
    }
  }

  /** Every 16 bytes are the encoding of exactly the number they read as. */
  lemma BytesRoundTrip(bs: seq<byte>)
    requires |bs| == 16
    ensures Signed(SignedOf(FromLE(bs))) && Bytes128(SignedOf(FromLE(bs))) == bs
  {
    LEofFromLE(bs);
    Pow256Values();
    hide LE, FromLE, Pow256, SignedOf;
    SignedResidue(FromLE(bs));
  }

  // ---- decimal text in C++ -------------------------------------------------

  /** serify_u128_from_str: wraps silently, rejects anything but digits. */
  method U128FromStr(s: string) returns (r: Option<nat>)
    ensures r.Some? <==> AllDigits(s)
    ensures r.Some? ==> r.value == DigitsValue(s) % TWO128
  {
    var n: nat := 0;
    for i := 0 to |s|
      invariant AllDigits(s[..i]) && n == DigitsValue(s[..i]) % TWO128
    {
      if !IsDigit(s[i]) { return None; }
      assert s[..i + 1][..i] == s[..i];
      WrapStep(DigitsValue(s[..i]), DigitValue(s[i]));
      n := (n * 10 + DigitValue(s[i])) % TWO128;
    }
    assert s[..|s|] == s;
    r := Some(n);
  }

  lemma WrapStep(x: nat, d: nat)
    ensures (x % TWO128 * 10 + d) % TWO128 == (10 * x + d) % TWO128
  {
    var q, m := x / TWO128, x % TWO128;
    assert 10 * x + d == (m * 10 + d) + TWO128 * (10 * q);
    SameRemainder(m * 10 + d, 10 * q);
  }

  lemma SameRemainder(a: int, k: int)
    ensures (a + TWO128 * k) % TWO128 == a % TWO128
  {
  }

  /** Two's complement of a 128-bit pattern, read as signed. */
  function AsSigned(u: int): int
    requires Unsigned(u)
  {
    SignedOf(u)
  }

  /** ~mag + 1, wrapping. */
  function Negated(mag: int): (u: int)
    requires Unsigned(mag)
    ensures Unsigned(u)
  {
    (TWO128 - 1 - mag + 1) % TWO128
  }

  /** serify_i128_from_str. */
  method I128FromStr(s: string) returns (r: Option<int>)
    ensures r == FromStr(s)
  {
    var neg := s != "" && s[0] == '-';
    var mag := U128FromStr(if neg then s[1..] else s);
    if mag.None? { return None; }
    r := Some(if neg then AsSigned(Negated(mag.value)) else AsSigned(mag.value));
  }

  function FromStr(s: string): Option<int> {
    var neg := s != "" && s[0] == '-';
    var t := if neg then s[1..] else s;
    if !AllDigits(t) then None
    else
      var mag := DigitsValue(t) % TWO128;
      Some(if neg then AsSigned(Negated(mag)) else AsSigned(mag))
  }

  /** serify_u128_to_str: digits from the right, then reversed. */
  method U128ToStr(u: nat) returns (s: string)
    ensures s == Digits(u)
  {
    if u == 0 {
      assert Digits(0) == [DigitChar(0)] == "0";
      return "0";
    }
    var n := u;
    var out := "";
    while n > 0
      invariant n >= 0
      invariant n > 0 ==> Digits(u) == Digits(n) + ReverseText(out)
      invariant n == 0 ==> Digits(u) == ReverseText(out)
      decreases n
    {
      ReverseSnoc(out, DigitChar(n % 10));
      if n < 10 {
        assert Digits(n) == [DigitChar(n % 10)];
      } else {
        assert Digits(n) + ReverseText(out) == Digits(n / 10) + ([DigitChar(n % 10)] + ReverseText(out));
      }
      out := out + [DigitChar(n % 10)];
      n := n / 10;
    }
    s := ReverseText(out);
  }

  function ReverseText(s: string): (r: string)
    ensures |r| == |s| && forall i | 0 <= i < |s| :: r[i] == s[|s| - 1 - i]
  {
    seq(|s|, i requires 0 <= i < |s| => s[|s| - 1 - i])
  }

  lemma ReverseSnoc(s: string, c: char)
    ensures ReverseText(s + [c]) == [c] + ReverseText(s)
  {
  }

  /** serify_i128_to_str, which also negates in the unsigned domain. */
  method I128ToStr(n: int) returns (s: string)
    requires Signed(n)
    ensures s == IntText(n)
  {
    if n < 0 {
      var mag := Negated(n % TWO128);
      assert mag == -n;
      s := U128ToStr(mag);
      s := "-" + s;
      return;
    }
    s := U128ToStr(n);
  }

  lemma NegatedResidue(x: int)
    requires x >= 0
    ensures AsSigned(Negated(x % TWO128)) == SignedOf((-x) % TWO128)
  {
    var m := x % TWO128;
    assert x == m + TWO128 * (x / TWO128);
    assert -x == -m + TWO128 * -(x / TWO128);
    SameRemainder(-m, -(x / TWO128));
  }

  /** Reading text gives the signed residue of the number it spells. */
  lemma FromStrValue(s: string)
    ensures var neg := s != "" && s[0] == '-';
            var t := if neg then s[1..] else s;
            FromStr(s) == if !AllDigits(t) then None
                          else Some(var d: int := DigitsValue(t); SignedOf((if neg then -d else d) % TWO128))
  {
    hide DigitsValue, AllDigits, SignedOf, Negated, AsSigned;
    var neg := s != "" && s[0] == '-';
    var t := if neg then s[1..] else s;
    if AllDigits(t) {
      NegatedResidue(DigitsValue(t));
      AsSignedIs(DigitsValue(t) % TWO128);
    }
  }

  lemma AsSignedIs(u: nat)
    requires Unsigned(u)
    ensures AsSigned(u) == SignedOf(u)
  {
  }

  lemma ResidueOfSigned(n: int)
    ensures SignedOf(n % TWO128) == n <==> Signed(n)
  {
  }

  /** The C++ text reads back as the number exactly on the signed range, -2^127
      included: the wrapping negation is right where the plain one overflows. */
  lemma TextRoundTrip(n: int)
    ensures FromStr(IntText(n)) == Some(n) <==> Signed(n)
  {
    hide FromStr, DigitsValue, SignedOf, Signed;
    DigitsValueOfDigits(if n < 0 then -n else n);
    FromStrValue(IntText(n));
    ResidueOfSigned(n);
    if n < 0 {
      assert IntText(n)[1..] == Digits(-n);
    } else {
      assert IsDigit(IntText(n)[0]);
    }
  }
}
