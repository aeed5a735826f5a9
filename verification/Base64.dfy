/** The C++ worker's base64 (examples/appdata/cpp/customer.hpp): the encoder's groups
    of three, and the decoder's running accumulator, which is never masked and wraps. */
module Base64 {
  import opened Common

  const WORD := 0x1_0000_0000

  // ---- the alphabet --------------------------------------------------------

  function Letter(v: int): (c: char)
    requires 0 <= v < 64
    ensures Sextet(c) == Some(v) && c != '='
  {
    if v < 26 then 'A' + v as char
    else if v < 52 then 'a' + (v - 26) as char
    else if v < 62 then '0' + (v - 52) as char
    else if v == 62 then '+' else '/'
  }

  /** The value of a letter; nothing for padding or any other character. */
  function Sextet(c: char): (v: Option<int>)
    ensures v.Some? ==> 0 <= v.value < 64
  {
    if 'A' <= c <= 'Z' then Some(c as int - 'A' as int)
    else if 'a' <= c <= 'z' then Some(c as int - 'a' as int + 26)
    else if '0' <= c <= '9' then Some(c as int - '0' as int + 52)
    else if c == '+' then Some(62)
    else if c == '/' then Some(63)
    else None
  }

  // ---- encoding ------------------------------------------------------------

  /** The four characters for the next one, two or three bytes. */
  function Group(bs: seq<byte>): (s: string)
    requires bs != []
    ensures |s| == 4
  {
    var b0: int := bs[0];
    var b1: int := if |bs| > 1 then bs[1] else 0;
    var b2: int := if |bs| > 2 then bs[2] else 0;
    var v := b0 * 0x1_0000 + b1 * 0x100 + b2;
    [Letter(v / 0x4_0000 % 64), Letter(v / 0x1000 % 64),
     if |bs| > 1 then Letter(v / 64 % 64) else '=',
     if |bs| > 2 then Letter(v % 64) else '=']
  }

  function Encode(bs: seq<byte>): string
    decreases |bs|
  {
    if bs == [] then ""
    else Group(bs) + (if |bs| <= 3 then "" else Encode(bs[3..]))
  }

  method B64Encode(bs: seq<byte>) returns (out: string)
    ensures out == Encode(bs)
  {
    hide Encode, Group;
    out := "";
    var i := 0;
    assert "" + EncodeFrom(bs, 0) == Encode(bs) by { assert bs[0..] == bs; EncodeNothing(); }
    while i < |bs|
      invariant 0 <= i && out + EncodeFrom(bs, i) == Encode(bs)
    {
      EncodeStep(bs, i);
      out := out + Group(bs[i..]);
      i := i + 3;
    }
  }

  /** What the bytes from `i` on encode to. */
  function EncodeFrom(bs: seq<byte>, i: nat): string { if i < |bs| then Encode(bs[i..]) else "" }

  lemma EncodeNothing()
    ensures Encode([]) == ""
  {
  }

  lemma EncodeStep(bs: seq<byte>, i: nat)
    requires i < |bs|
    ensures forall out :: (out + Group(bs[i..])) + EncodeFrom(bs, i + 3) == out + EncodeFrom(bs, i)
  {
    hide Group;
    var t := bs[i..];
    assert |t| > 3 ==> t[3..] == bs[i + 3..];
    assert EncodeFrom(bs, i) == Group(t) + EncodeFrom(bs, i + 3);
    hide Encode, EncodeFrom;
    forall out ensures (out + Group(t)) + EncodeFrom(bs, i + 3) == out + EncodeFrom(bs, i) {
      assert (out + Group(t)) + EncodeFrom(bs, i + 3) == out + (Group(t) + EncodeFrom(bs, i + 3));
    }
  }

  // ---- decoding ------------------------------------------------------------

  /** The decoder's variables; `bits` counts the accumulator's pending low bits. */
  datatype State = State(acc: int, bits: nat, out: seq<byte>)

  /** One letter: shift it in, 32 bits wide, and emit a byte when eight are pending. */
  function Feed(st: State, v: int): State {
    var acc := (st.acc * 64 + v) % WORD;
    if st.bits + 6 >= 8
    then State(acc, st.bits - 2, st.out + [acc / Pow2(st.bits - 2) % 256])
    else State(acc, st.bits + 6, st.out)
  }

  function FeedAll(st: State, s: string): State
    decreases |s|
  {
    if s == "" then st
    else FeedAll(if Sextet(s[0]).None? then st else Feed(st, Sextet(s[0]).value), s[1..])
  }

  function Decode(s: string): seq<byte> { FeedAll(State(0, 0, []), s).out }

  method B64Decode(s: string) returns (out: seq<byte>)
    ensures out == Decode(s)
  {
    var st := State(0, 0, []);
    assert s[0..] == s;
    for i := 0 to |s|
      invariant FeedAll(st, s[i..]) == FeedAll(State(0, 0, []), s)
    {
      assert s[i..][1..] == s[i + 1..] && s[i..][0] == s[i];
      var v := Sextet(s[i]);
      if v.Some? {
        st := Feed(st, v.value);
      }
    }
    out := st.out;
  }

  // ---- the decoder undoes the encoder --------------------------------------

  lemma {:induction false} FeedAppend(st: State, s: string, t: string)
    ensures FeedAll(st, s + t) == FeedAll(FeedAll(st, s), t)
    decreases |s|
  {
    if s == "" {
      assert s + t == t;
    } else {
      assert (s + t)[1..] == s[1..] + t;
      FeedAppend(if Sextet(s[0]).None? then st else Feed(st, Sextet(s[0]).value), s[1..], t);
    }
  }

  /** Wrapping at 32 bits leaves the low bits alone. */
  lemma Wrapped(x: int, m: int, q: int, low: int) returns (r: int)
    requires m == 64 || m == 256 || m == 1024 || m == 4096
    requires x == m * q + low && 0 <= low < m
    ensures x % WORD == m * r + low && r >= 0
  {
    var k := x / WORD;
    if m == 64 { r := q - 0x400_0000 * k; }
    else if m == 256 { r := q - 0x100_0000 * k; }
    else if m == 1024 { r := q - 0x40_0000 * k; }
    else { r := q - 0x10_0000 * k; }
  }

  lemma Powers()
    ensures Pow2(0) == 1 && Pow2(2) == 4 && Pow2(4) == 16
  {
    assert Pow2(1) == 2 && Pow2(3) == 8;
  }

  /** Two letters into an empty accumulator: one byte out, four bits pending. */
  lemma FeedTwo(st: State, v1: int, v2: int) returns (acc: int)
    requires st.bits == 0 && 0 <= v1 < 64 && 0 <= v2 < 64
    ensures Feed(Feed(st, v1), v2) == State(acc, 4, st.out + [v1 * 4 + v2 / 16])
    ensures acc >= 0 && acc % 64 == v2
  {
    Powers();
    var r1 := Wrapped(st.acc * 64 + v1, 64, st.acc, v1);
    var a1 := (st.acc * 64 + v1) % WORD;
    var r2 := Wrapped(a1 * 64 + v2, 4096, r1, v1 * 64 + v2);
    acc := (a1 * 64 + v2) % WORD;
    SixteenthOf(r2, v1, v2);
  }

  lemma Div16(q: int, rem: int)
    requires 0 <= rem < 16
    ensures (16 * q + rem) / 16 == q
  {
  }

  lemma Div4(q: int, rem: int)
    requires 0 <= rem < 4
    ensures (4 * q + rem) / 4 == q
  {
  }

  lemma Mod256(q: int, rem: int)
    requires 0 <= rem < 256
    ensures (256 * q + rem) % 256 == rem
  {
  }

  lemma Mod64(q: int, rem: int)
    requires 0 <= rem < 64
    ensures (64 * q + rem) % 64 == rem
  {
  }

  lemma SixteenthOf(r: int, v1: int, v2: int)
    requires r >= 0 && 0 <= v1 < 64 && 0 <= v2 < 64
    ensures (4096 * r + (v1 * 64 + v2)) / 16 % 256 == v1 * 4 + v2 / 16
    ensures (4096 * r + (v1 * 64 + v2)) % 64 == v2
  {
    var h, l := v2 / 16, v2 % 16;
    Div16(256 * r + v1 * 4 + h, l);
    assert 4096 * r + (v1 * 64 + v2) == 16 * (256 * r + v1 * 4 + h) + l;
    Mod256(r, v1 * 4 + h);
    Mod64(64 * r + v1, v2);
    assert 4096 * r + (v1 * 64 + v2) == 64 * (64 * r + v1) + v2;
  }

  lemma FeedThird(acc: int, out: seq<byte>, v2: int, v3: int) returns (next: int)
    requires acc >= 0 && acc % 64 == v2 && 0 <= v3 < 64
    ensures Feed(State(acc, 4, out), v3) == State(next, 2, out + [v2 % 16 * 16 + v3 / 4])
    ensures next >= 0 && next % 64 == v3
  {
    Powers();
    assert acc == 16 * (acc / 16) + v2 % 16;
    var r := Wrapped(acc * 64 + v3, 1024, acc / 16, v2 % 16 * 64 + v3);
    next := (acc * 64 + v3) % WORD;
    QuarterOf(r, v2 % 16, v3);
  }

  lemma QuarterOf(r: int, w: int, v3: int)
    requires r >= 0 && 0 <= w < 16 && 0 <= v3 < 64
    ensures (1024 * r + (w * 64 + v3)) / 4 % 256 == w * 16 + v3 / 4
    ensures (1024 * r + (w * 64 + v3)) % 64 == v3
  {
    var h, l := v3 / 4, v3 % 4;
    Div4(256 * r + w * 16 + h, l);
    assert 1024 * r + (w * 64 + v3) == 4 * (256 * r + w * 16 + h) + l;
    Mod256(r, w * 16 + h);
    Mod64(16 * r + w, v3);
    assert 1024 * r + (w * 64 + v3) == 64 * (16 * r + w) + v3;
  }

  /** The low byte of the accumulator after the fourth letter, wrapped or not. */
  lemma FourthByte(acc: int, v3: int, v4: int)
    requires acc >= 0 && acc % 64 == v3 && 0 <= v4 < 64
    ensures (acc * 64 + v4) % WORD % 256 == v3 % 4 * 64 + v4
  {
    assert acc == 4 * (acc / 4) + v3 % 4;
    var r := Wrapped(acc * 64 + v4, 256, acc / 4, v3 % 4 * 64 + v4);
    hide WORD;
    Mod256(r, v3 % 4 * 64 + v4);
  }

  lemma FeedFourth(acc: int, out: seq<byte>, v3: int, v4: int) returns (next: int)
    requires acc >= 0 && acc % 64 == v3 && 0 <= v4 < 64
    ensures Feed(State(acc, 2, out), v4) == State(next, 0, out + [v3 % 4 * 64 + v4])
  {
    FourthByte(acc, v3, v4);
    Powers();
    next := (acc * 64 + v4) % WORD;
    hide Pow2, WORD;
    assert next / 1 == next;
  }

  /** The letters of a group, and what they say about its bytes. */
  lemma GroupLetters(bs: seq<byte>)
    requires bs != []
    ensures var b0: int := bs[0];
            var b1: int := if |bs| > 1 then bs[1] else 0;
            var b2: int := if |bs| > 2 then bs[2] else 0;
            var g := Group(bs);
            && g[0] == Letter(b0 / 4) && g[1] == Letter(b0 % 4 * 16 + b1 / 16)
            && g[2] == (if |bs| > 1 then Letter(b1 % 16 * 4 + b2 / 64) else '=')
            && g[3] == (if |bs| > 2 then Letter(b2 % 64) else '=')
  {
    var b0: int := bs[0];
    var b1: int := if |bs| > 1 then bs[1] else 0;
    var b2: int := if |bs| > 2 then bs[2] else 0;
    Sextets(b0, b1, b2);
  }

  lemma FirstSextets(b0: int, b1: int, b2: int)
    requires 0 <= b0 < 256 && 0 <= b1 < 256 && 0 <= b2 < 256
    ensures var v := b0 * 0x1_0000 + b1 * 0x100 + b2;
            v / 0x4_0000 % 64 == b0 / 4 && v / 0x1000 % 64 == b0 % 4 * 16 + b1 / 16
  {
    var v := b0 * 0x1_0000 + b1 * 0x100 + b2;
    assert v / 0x4_0000 == b0 / 4;
    assert v / 0x1000 == 64 * (b0 / 4) + (b0 % 4 * 16 + b1 / 16);
  }

  lemma LastSextets(b0: int, b1: int, b2: int)
    requires 0 <= b0 < 256 && 0 <= b1 < 256 && 0 <= b2 < 256
    ensures var v := b0 * 0x1_0000 + b1 * 0x100 + b2;
            v / 64 % 64 == b1 % 16 * 4 + b2 / 64 && v % 64 == b2 % 64
  {
    var v := b0 * 0x1_0000 + b1 * 0x100 + b2;
    assert v / 64 == 64 * (16 * b0 + b1 / 16) + (b1 % 16 * 4 + b2 / 64);
  }

  lemma Sextets(b0: int, b1: int, b2: int)
    requires 0 <= b0 < 256 && 0 <= b1 < 256 && 0 <= b2 < 256
    ensures var v := b0 * 0x1_0000 + b1 * 0x100 + b2;
            && v / 0x4_0000 % 64 == b0 / 4 && v / 0x1000 % 64 == b0 % 4 * 16 + b1 / 16
            && v / 64 % 64 == b1 % 16 * 4 + b2 / 64 && v % 64 == b2 % 64
  {
    FirstSextets(b0, b1, b2);
    LastSextets(b0, b1, b2);
  }

  lemma FeedLetter(st: State, c: char, t: string, v: int)
    requires Sextet(c) == Some(v)
    ensures FeedAll(st, [c] + t) == FeedAll(Feed(st, v), t)
  {
    assert ([c] + t)[1..] == t;
  }

  lemma FeedPad(st: State, t: string)
    ensures FeedAll(st, ['='] + t) == FeedAll(st, t)
  {
    assert (['='] + t)[1..] == t;
  }

  /** Two letters, then whatever follows. */
  lemma FirstByte(st: State, g: string, t: string, b0: int, b1: int) returns (acc: int)
    requires st.bits == 0 && 0 <= b0 < 256 && 0 <= b1 < 256
    requires |g| == 2 && g[0] == Letter(b0 / 4) && g[1] == Letter(b0 % 4 * 16 + b1 / 16)
    ensures FeedAll(st, g + t) == FeedAll(State(acc, 4, st.out + [b0]), t)
    ensures acc >= 0 && acc % 64 % 16 == b1 / 16
  {
    var v1, v2 := b0 / 4, b0 % 4 * 16 + b1 / 16;
    assert g + t == [g[0]] + ([g[1]] + t);
    hide Letter, Sextet, FeedAll, Feed;
    FeedLetter(st, g[0], [g[1]] + t, v1);
    FeedLetter(Feed(st, v1), g[1], t, v2);
    acc := FeedTwo(st, v1, v2);
    FirstBits(b0, b1);
  }

  lemma FirstBits(b0: int, b1: int)
    requires 0 <= b0 < 256 && 0 <= b1 < 256
    ensures (b0 % 4 * 16 + b1 / 16) / 16 == b0 % 4 && b0 / 4 * 4 + b0 % 4 == b0
    ensures (b0 % 4 * 16 + b1 / 16) % 16 == b1 / 16
  {
  }

  lemma SecondBits(b1: int, b2: int)
    requires 0 <= b1 < 256 && 0 <= b2 < 256
    ensures (b1 % 16 * 4 + b2 / 64) / 4 == b1 % 16 && b1 / 16 * 16 + b1 % 16 == b1
    ensures (b1 % 16 * 4 + b2 / 64) % 4 == b2 / 64 && b2 / 64 * 64 + b2 % 64 == b2
  {
  }

  lemma SecondByte(acc: int, out: seq<byte>, b1: int, b2: int) returns (next: int)
    requires acc >= 0 && 0 <= b1 < 256 && 0 <= b2 < 256 && acc % 64 % 16 == b1 / 16
    ensures Feed(State(acc, 4, out), b1 % 16 * 4 + b2 / 64) == State(next, 2, out + [b1])
    ensures next >= 0 && next % 64 % 4 == b2 / 64
  {
    SecondBits(b1, b2);
    hide Feed;
    next := FeedThird(acc, out, acc % 64, b1 % 16 * 4 + b2 / 64);
  }

  lemma ThirdByte(acc: int, out: seq<byte>, b1: int, b2: int) returns (next: int)
    requires acc >= 0 && 0 <= b1 < 256 && 0 <= b2 < 256 && acc % 64 % 4 == b2 / 64
    ensures Feed(State(acc, 2, out), b2 % 64) == State(next, 0, out + [b2])
  {
    SecondBits(b1, b2);
    hide Feed;
    next := FeedFourth(acc, out, acc % 64, b2 % 64);
  }

  lemma ByteOne(st: State, bs: seq<byte>)
    requires |bs| == 1 && st.bits == 0
    ensures FeedAll(st, Group(bs)).out == st.out + bs
  {
    GroupLetters(bs);
    var g := Group(bs);
    hide Group, Letter, Sextet, FeedAll, Feed;
    assert g == g[..2] + (['='] + (['='] + ""));
    var a2 := FirstByte(st, g[..2], ['='] + (['='] + ""), bs[0], 0);
    var s2 := State(a2, 4, st.out + [bs[0]]);
    FeedPad(s2, ['='] + "");
    FeedPad(s2, "");
    FeedNone(s2);
    assert bs == [bs[0]];
  }

  lemma ByteTwo(st: State, bs: seq<byte>)
    requires |bs| == 2 && st.bits == 0
    ensures FeedAll(st, Group(bs)).out == st.out + bs
  {
    GroupLetters(bs);
    var g := Group(bs);
    var b1: int := bs[1];
    hide Group, Letter, Sextet, FeedAll, Feed;
    assert g == g[..2] + ([g[2]] + (['='] + ""));
    var a2 := FirstByte(st, g[..2], [g[2]] + (['='] + ""), bs[0], b1);
    var s2 := State(a2, 4, st.out + [bs[0]]);
    var v3 := b1 % 16 * 4;
    FeedLetter(s2, g[2], ['='] + "", v3);
    var a3 := SecondByte(a2, s2.out, b1, 0);
    var s3 := State(a3, 2, s2.out + [b1]);
    FeedPad(s3, "");
    FeedNone(s3);
    assert bs == [bs[0], bs[1]];
  }

  lemma ByteThree(st: State, bs: seq<byte>)
    requires |bs| >= 3 && st.bits == 0
    ensures FeedAll(st, Group(bs)).out == st.out + bs[..3] && FeedAll(st, Group(bs)).bits == 0
  {
    GroupLetters(bs);
    var g := Group(bs);
    hide Group, Letter, Sextet, FeedAll, Feed, Pow2;
    assert g == g[..2] + ([g[2]] + ([g[3]] + ""));
    var a2 := FirstByte(st, g[..2], [g[2]] + ([g[3]] + ""), bs[0], bs[1]);
    LastTwoBytes(a2, st.out + [bs[0]], bs[1], bs[2], g[2], g[3]);
    assert (st.out + [bs[0]]) + [bs[1], bs[2]] == st.out + bs[..3];
  }

  lemma LastTwoBytes(acc: int, out: seq<byte>, b1: int, b2: int, c3: char, c4: char)
    requires 0 <= b1 < 256 && 0 <= b2 < 256 && acc >= 0 && acc % 64 % 16 == b1 / 16
    requires c3 == Letter(b1 % 16 * 4 + b2 / 64) && c4 == Letter(b2 % 64)
    ensures FeedAll(State(acc, 4, out), [c3] + ([c4] + "")).out == out + [b1, b2]
    ensures FeedAll(State(acc, 4, out), [c3] + ([c4] + "")).bits == 0
  {
    hide Letter, Sextet, FeedAll, Feed, Pow2;
    var s2 := State(acc, 4, out);
    var v3, v4 := b1 % 16 * 4 + b2 / 64, b2 % 64;
    FeedLetter(s2, c3, [c4] + "", v3);
    var a3 := SecondByte(acc, s2.out, b1, b2);
    var s3 := State(a3, 2, s2.out + [b1]);
    FeedLetter(s3, c4, "", v4);
    var a4 := ThirdByte(a3, s3.out, b1, b2);
    FeedNone(State(a4, 0, s3.out + [b2]));
  }

  /** A group fed to an empty accumulator emits its bytes; a full one empties it again. */
  lemma GroupBack(st: State, bs: seq<byte>)
    requires bs != [] && st.bits == 0
    ensures FeedAll(st, Group(bs)).out == st.out + (if |bs| <= 3 then bs else bs[..3])
    ensures |bs| >= 3 ==> FeedAll(st, Group(bs)).bits == 0
  {
    hide Group, FeedAll;
    if |bs| == 1 { ByteOne(st, bs); }
    else if |bs| == 2 { ByteTwo(st, bs); }
    else {
      ByteThree(st, bs);
      assert |bs| == 3 ==> bs[..3] == bs;
    }
  }

  lemma FeedNone(st: State)
    ensures FeedAll(st, "") == st
  {
  }

  lemma {:induction false} FeedEncoded(st: State, bs: seq<byte>)
    requires st.bits == 0
    ensures FeedAll(st, Encode(bs)).out == st.out + bs
    decreases |bs|
  {
    hide Group, FeedAll;
    if bs == [] {
      FeedNone(st);
    } else if |bs| <= 3 {
      GroupBack(st, bs);
      assert Group(bs) + "" == Group(bs);
    } else {
      GroupBack(st, bs);
      FeedAppend(st, Group(bs), Encode(bs[3..]));
      FeedEncoded(FeedAll(st, Group(bs)), bs[3..]);
      assert bs == bs[..3] + bs[3..];
    }
  }

  /** On every byte sequence, although the accumulator wraps. */
  lemma RoundTrip(bs: seq<byte>)
    ensures Decode(Encode(bs)) == bs
  {
    FeedEncoded(State(0, 0, []), bs);
  }

  // ---- the padded form -----------------------------------------------------

  predicate IsLetter(c: char) { Sextet(c).Some? }

  /** Section 4 of RFC 4648: four characters for every three bytes begun, letters
      except for the padding at the end, which fills the last group. */
  lemma {:induction false} PaddedForm(bs: seq<byte>)
    ensures |Encode(bs)| == (|bs| + 2) / 3 * 4
    ensures PaddedText(Encode(bs), (3 - |bs| % 3) % 3)
    decreases |bs|
  {
    hide Letter, Sextet, Group, IsLetter, PaddedText;
    if bs == [] {
      EmptyPadded();
    } else {
      LettersAre(bs);
      var g := Group(bs);
      if |bs| > 3 {
        PaddedForm(bs[3..]);
        assert |bs[3..]| % 3 == |bs| % 3;
        PaddedConcat(g, Encode(bs[3..]), (3 - |bs| % 3) % 3);
      } else {
        assert g + "" == g;
      }
    }
  }

  /** Letters, then exactly `pad` padding characters. */
  predicate PaddedText(s: string, pad: nat) {
    forall i | 0 <= i < |s| :: (s[i] == '=' || IsLetter(s[i])) && (s[i] == '=' <==> i >= |s| - pad)
  }

  lemma EmptyPadded()
    ensures PaddedText("", 0)
  {
  }

  lemma PaddedConcat(g: string, t: string, pad: nat)
    requires PaddedText(g, 0) && PaddedText(t, pad) && pad <= |t|
    ensures PaddedText(g + t, pad)
  {
    hide IsLetter;
    forall i | 0 <= i < |g + t|
      ensures ((g + t)[i] == '=' || IsLetter((g + t)[i])) && ((g + t)[i] == '=' <==> i >= |g + t| - pad)
    {
      if i < |g| {
        assert (g + t)[i] == g[i];
      } else {
        assert (g + t)[i] == t[i - |g|];
      }
    }
  }

  lemma LettersAre(bs: seq<byte>)
    requires bs != []
    ensures |Group(bs)| == 4 && PaddedText(Group(bs), if |bs| >= 3 then 0 else 3 - |bs|)
  {
    hide Letter;
  }
}
