/** The C++ worker library's hand-written JSON (lib/cpp/serify.hpp): the writer, the
    parser that advances a pointer, and the UTF-8 that escapes decode to. Text is
    bytes. */
module CppJson {
  import opened Common

  const QUOTE: byte := 0x22
  const SLASH: byte := 0x5C
  const COMMA: byte := 0x2C
  const COLON: byte := 0x3A
  const LBRACK: byte := 0x5B
  const RBRACK: byte := 0x5D
  const LBRACE: byte := 0x7B
  const RBRACE: byte := 0x7D

  /** A JSON value; a number is its source token. */
  datatype Json =
    | Null
    | Bool(b: bool)
    | Num(token: seq<byte>)
    | Str(bytes: seq<byte>)
    | Arr(items: seq<Json>)
    | Obj(members: seq<Member>)

  datatype Member = Member(key: seq<byte>, value: Json)

  // ---- writing -------------------------------------------------------------

  function HexCode(d: int): byte
    requires 0 <= d < 16
  {
    if d < 10 then 0x30 + d else 0x57 + d
  }

  /** One byte inside a string. */
  function Escape(c: byte): (s: seq<byte>)
    ensures s != []
  {
    if c == QUOTE then [SLASH, QUOTE]
    else if c == SLASH then [SLASH, SLASH]
    else if c == 0x0A then [SLASH, 0x6E]
    else if c == 0x0D then [SLASH, 0x72]
    else if c == 0x09 then [SLASH, 0x74]
    else if c < 0x20 then [SLASH, 0x75, 0x30, 0x30, HexCode(c / 16), HexCode(c % 16)]
    else [c]
  }

  function EscapeAll(bytes: seq<byte>): seq<byte> {
    if bytes == [] then [] else Escape(bytes[0]) + EscapeAll(bytes[1..])
  }

  function WriteString(bytes: seq<byte>): seq<byte> { [QUOTE] + (EscapeAll(bytes) + [QUOTE]) }

  const NULL: seq<byte> := [0x6E, 0x75, 0x6C, 0x6C]
  const TRUE: seq<byte> := [0x74, 0x72, 0x75, 0x65]
  const FALSE: seq<byte> := [0x66, 0x61, 0x6C, 0x73, 0x65]

  /** json_write, with every number as its raw token. */
  function Write(j: Json): seq<byte>
    decreases j, 0
  {
    match j
    case Null => NULL
    case Bool(b) => if b then TRUE else FALSE
    case Num(token) => token
    case Str(bytes) => WriteString(bytes)
    case Arr(items) => [LBRACK] + (WriteItems(items) + [RBRACK])
    case Obj(members) => [LBRACE] + (WriteMembers(members) + [RBRACE])
  }

  function WriteItems(items: seq<Json>): seq<byte>
    decreases items, 1
  {
    if items == [] then []
    else if |items| == 1 then Write(items[0])
    else Write(items[0]) + ([COMMA] + WriteItems(items[1..]))
  }

  function WriteMember(m: Member): seq<byte>
    decreases m, 1
  {
    WriteString(m.key) + ([COLON] + Write(m.value))
  }

  function WriteMembers(members: seq<Member>): seq<byte>
    decreases members, 1
  {
    if members == [] then []
    else if |members| == 1 then WriteMember(members[0])
    else WriteMember(members[0]) + ([COMMA] + WriteMembers(members[1..]))
  }

  // ---- UTF-8 ---------------------------------------------------------------

  /** append_utf8; `0xF0 | x` in a byte is 0xF0 plus the low four bits of x. */
  function Utf8(cp: nat): (bs: seq<byte>) {
    if cp < 0x80 then [cp]
    else if cp < 0x800 then [0xC0 + cp / 64, 0x80 + cp % 64]
    else if cp < 0x1_0000 then [0xE0 + cp / 4096, 0x80 + cp / 64 % 64, 0x80 + cp % 64]
    else [0xF0 + cp / 0x4_0000 % 16, 0x80 + cp / 4096 % 64, 0x80 + cp / 64 % 64, 0x80 + cp % 64]
  }

  predicate Continuation(b: byte) { 0x80 <= b < 0xC0 }

  /** Section 3 of RFC 3629, read the other way: the code point a byte sequence of the
      shortest form stands for. */
  function FromUtf8(bs: seq<byte>): Option<int> {
    if |bs| == 1 && bs[0] < 0x80 then Some(bs[0])
    else if |bs| == 2 && 0xC2 <= bs[0] < 0xE0 && Continuation(bs[1]) then
      var a: int, b: int := bs[0], bs[1];
      Some((a - 0xC0) * 64 + (b - 0x80))
    else if |bs| == 3 && 0xE0 <= bs[0] < 0xF0 && Continuation(bs[1]) && Continuation(bs[2]) then
      var a: int, b: int, c: int := bs[0], bs[1], bs[2];
      var cp := (a - 0xE0) * 4096 + (b - 0x80) * 64 + (c - 0x80);
      if cp >= 0x800 && !(0xD800 <= cp < 0xE000) then Some(cp) else None
    else if |bs| == 4 && 0xF0 <= bs[0] < 0xF5 && Continuation(bs[1]) && Continuation(bs[2]) && Continuation(bs[3]) then
      var a: int, b: int, c: int, d: int := bs[0], bs[1], bs[2], bs[3];
      var cp := (a - 0xF0) * 0x4_0000 + (b - 0x80) * 4096 + (c - 0x80) * 64 + (d - 0x80);
      if 0x1_0000 <= cp < 0x11_0000 then Some(cp) else None
    else None
  }

  /** A Unicode scalar value. */
  predicate Scalar(cp: int) { 0 <= cp < 0xD800 || 0xE000 <= cp < 0x11_0000 }

  /** The appended bytes are the right ones exactly for scalar values. */
  lemma Utf8IsRight(cp: nat)
    ensures FromUtf8(Utf8(cp)) == Some(cp) <==> Scalar(cp)
  {
    if cp >= 0x1_0000 { FourBytes(cp); }
    else if cp >= 0x800 { ThreeBytes(cp); }
  }

  lemma ThreeBytes(cp: nat)
    requires 0x800 <= cp < 0x1_0000
    ensures FromUtf8(Utf8(cp)) == Some(cp) <==> Scalar(cp)
  {
    var a, b, c := cp / 4096, cp / 64 % 64, cp % 64;
    assert cp == a * 4096 + b * 64 + c;
    assert Utf8(cp) == [0xE0 + a, 0x80 + b, 0x80 + c];
  }

  lemma FourBytes(cp: nat)
    requires cp >= 0x1_0000
    ensures FromUtf8(Utf8(cp)) == Some(cp) <==> Scalar(cp)
  {
    var a, b, c, d := cp / 0x4_0000, cp / 4096 % 64, cp / 64 % 64, cp % 64;
    assert cp == a * 0x4_0000 + b * 4096 + c * 64 + d;
    assert Utf8(cp) == [0xF0 + a % 16, 0x80 + b, 0x80 + c, 0x80 + d];
    if a < 16 { assert a % 16 == a; }
  }

  // ---- parsing -------------------------------------------------------------

  /** strtod: how many bytes it takes as a number. */
  type Strtod = seq<byte> -> nat

  predicate IsDigit(c: byte) { 0x30 <= c <= 0x39 }

  /** Decimal integer text. */
  predicate IntegerToken(t: seq<byte>) {
    t != [] && forall i | 0 <= i < |t| :: IsDigit(t[i]) || (i == 0 && t[i] == 0x2D && |t| > 1)
  }

  /** What can follow a value. */
  predicate Closed(rest: seq<byte>) { rest == [] || rest[0] in {COMMA, RBRACK, RBRACE} }

  /** strtod takes an integer token whole when a delimiter or the end follows. */
  ghost predicate Lawful(strtod: Strtod) {
    forall t, rest | IntegerToken(t) && Closed(rest) :: strtod(t + rest) == |t|
  }

  datatype Parsed<+T> = Parsed(value: T, rest: seq<byte>)

  function Drop(s: seq<byte>, n: nat): (r: seq<byte>)
    ensures |r| <= |s|
  {
    if n <= |s| then s[n..] else []
  }

  predicate IsSpace(c: byte) { c == 0x20 || c == 0x09 || c == 0x0A || c == 0x0D }

  function Skip(s: seq<byte>): (r: seq<byte>)
    ensures |r| <= |s| && (r == [] || !IsSpace(r[0]))
    ensures s == [] || !IsSpace(s[0]) ==> r == s
  {
    if s != [] && IsSpace(s[0]) then Skip(s[1..]) else s
  }

  function HexValue(c: byte): (v: Option<int>)
    ensures v.Some? ==> 0 <= v.value < 16
  {
    if 0x30 <= c <= 0x39 then Some(c - 0x30)
    else if 0x61 <= c <= 0x66 then Some(c - 0x57)
    else if 0x41 <= c <= 0x46 then Some(c - 0x37)
    else None
  }

  /** parse_hex4 on the four characters after the 'u'. */
  function Hex4(s: seq<byte>): (v: Option<int>)
    ensures v.Some? ==> 0 <= v.value < 0x1_0000 && |s| >= 4
  {
    if |s| < 4 then None
    else
      var a, b, c, d := HexValue(s[0]), HexValue(s[1]), HexValue(s[2]), HexValue(s[3]);
      if a.None? || b.None? || c.None? || d.None? then None
      else Some(((a.value * 16 + b.value) * 16 + c.value) * 16 + d.value)
  }

  predicate HighSurrogate(cp: int) { 0xD800 <= cp <= 0xDBFF }

  /** The pair, in 32-bit arithmetic; nothing checks that `lo` is a low surrogate. */
  function Joined(hi: int, lo: int): (cp: nat) {
    (0x1_0000 + (hi - 0xD800) * 0x400 + (lo - 0xDC00)) % 0x1_0000_0000
  }

  /** A \u escape after its 'u': the code point, and what follows. */
  function Unicode(s: seq<byte>): (r: Option<Parsed<nat>>)
    ensures r.Some? ==> |r.value.rest| < |s|
  {
    match Hex4(s)
    case None => None
    case Some(cp) =>
      var t := s[4..];
      if HighSurrogate(cp) && |t| >= 6 && t[0] == SLASH && t[1] == 0x75 then
        match Hex4(t[2..])
        case None => None
        case Some(lo) => Some(Parsed(Joined(cp, lo), t[6..]))
      else Some(Parsed(cp, t))
  }

  /** A simple escape. */
  function Unescape(c: byte): byte {
    if c == 0x62 then 0x08 else if c == 0x66 then 0x0C
    else if c == 0x6E then 0x0A else if c == 0x72 then 0x0D else if c == 0x74 then 0x09 else c
  }

  /** The rest of a string; at the end of input the terminating NUL is what a trailing
      backslash escapes. */
  function StringFrom(s: seq<byte>, acc: seq<byte>): (r: Option<Parsed<seq<byte>>>)
    ensures r.Some? ==> |r.value.rest| <= |s|
    decreases |s|
  {
    if s == [] then Some(Parsed(acc, []))
    else if s[0] == QUOTE then Some(Parsed(acc, s[1..]))
    else if s[0] != SLASH then StringFrom(s[1..], acc + [s[0]])
    else if |s| == 1 then Some(Parsed(acc + [0], []))
    else if s[1] == 0x75 then
      match Unicode(s[2..])
      case None => None
      case Some(u) => StringFrom(u.rest, acc + Utf8(u.value))
    else StringFrom(s[2..], acc + [Unescape(s[1])])
  }

  /** parse_string; anything but a quote fails the assertion. */
  function ParseString(s: seq<byte>): (r: Option<Parsed<seq<byte>>>)
    ensures r.Some? ==> |r.value.rest| < |s|
  {
    if s != [] && s[0] == QUOTE then StringFrom(s[1..], []) else None
  }

  function Parse(strtod: Strtod, text: seq<byte>): (r: Option<Parsed<Json>>)
    ensures r.Some? ==> |r.value.rest| <= |text|
    decreases |text|, 1
  {
    var s := Skip(text);
    if s == [] then Some(Parsed(Null, []))
    else if s[0] == QUOTE then
      match ParseString(s) case None => None case Some(p) => Some(Parsed(Str(p.value), p.rest))
    else if s[0] == 0x6E then Some(Parsed(Null, Drop(s, 4)))
    else if s[0] == 0x74 then Some(Parsed(Bool(true), Drop(s, 4)))
    else if s[0] == 0x66 then Some(Parsed(Bool(false), Drop(s, 5)))
    else if s[0] == LBRACK then
      var t := Skip(s[1..]);
      if t != [] && t[0] == RBRACK then Some(Parsed(Arr([]), t[1..]))
      else match Items(strtod, t) case None => None case Some(p) => Some(Parsed(Arr(p.value), Close(p.rest, RBRACK)))
    else if s[0] == LBRACE then
      var t := Skip(s[1..]);
      if t != [] && t[0] == RBRACE then Some(Parsed(Obj([]), t[1..]))
      else match Members(strtod, t) case None => None case Some(p) => Some(Parsed(Obj(p.value), Close(p.rest, RBRACE)))
    else
      var n := if strtod(s) <= |s| then strtod(s) else |s|;
      Some(Parsed(Num(s[..n]), s[n..]))
  }

  /** A closing bracket is stepped over when it is there. */
  function Close(s: seq<byte>, c: byte): (r: seq<byte>)
    ensures |r| <= |s|
  {
    if s != [] && s[0] == c then s[1..] else s
  }

  /** Elements while commas follow. */
  function Items(strtod: Strtod, s: seq<byte>): (r: Option<Parsed<seq<Json>>>)
    ensures r.Some? ==> |r.value.rest| <= |s|
    decreases |s|, 2
  {
    match Parse(strtod, Skip(s))
    case None => None
    case Some(p) =>
      var t := Skip(p.rest);
      if t != [] && t[0] == COMMA then
        match Items(strtod, t[1..])
        case None => None
        case Some(q) => Some(Parsed([p.value] + q.value, q.rest))
      else Some(Parsed([p.value], t))
  }

  function Members(strtod: Strtod, s: seq<byte>): (r: Option<Parsed<seq<Member>>>)
    ensures r.Some? ==> |r.value.rest| <= |s|
    decreases |s|, 2
  {
    match ParseString(Skip(s))
    case None => None
    case Some(k) =>
      var t := Skip(k.rest);
      if t == [] || t[0] != COLON then None
      else
        match Parse(strtod, t[1..])
        case None => None
        case Some(p) =>
          var m := Member(k.value, p.value);
          var u := Skip(p.rest);
          if u != [] && u[0] == COMMA then
            match Members(strtod, u[1..])
            case None => None
            case Some(q) => Some(Parsed([m] + q.value, q.rest))
          else Some(Parsed([m], u))
  }

  // ---- the parser undoes the writer ----------------------------------------

  /** Every number in the value is integer text. */
  predicate Writable(j: Json)
    decreases j
  {
    match j
    case Num(token) => IntegerToken(token)
    case Arr(items) => forall i | i in items :: Writable(i)
    case Obj(members) => forall m | m in members :: Writable(m.value)
    case _ => true
  }

  lemma HexCodeBack(d: int)
    requires 0 <= d < 16
    ensures HexValue(HexCode(d)) == Some(d)
  {
  }

  lemma ControlBack(c: byte, tail: seq<byte>)
    requires c < 0x20
    ensures var s := [0x30, 0x30, HexCode(c / 16), HexCode(c % 16)] + tail;
            Unicode(s) == Some(Parsed(c, tail)) && Utf8(c) == [c]
  {
    var s := [0x30, 0x30, HexCode(c / 16), HexCode(c % 16)] + tail;
    HexCodeBack(c / 16);
    HexCodeBack(c % 16);
    assert s[4..] == tail;
    assert Hex4(s) == Some(c);
  }

  /** What the writer makes of one byte, the parser reads as that byte. */
  lemma EscapeBack(c: byte, tail: seq<byte>, acc: seq<byte>)
    ensures StringFrom(Escape(c) + tail, acc) == StringFrom(tail, acc + [c])
  {
    var s := Escape(c) + tail;
    if c == QUOTE || c == SLASH || c == 0x0A || c == 0x0D || c == 0x09 {
      assert s[2..] == tail;
    } else if c < 0x20 {
      assert s[2..] == [0x30, 0x30, HexCode(c / 16), HexCode(c % 16)] + tail;
      ControlBack(c, tail);
    } else {
      assert s[1..] == tail;
    }
  }

  lemma EndOfString(acc: seq<byte>, rest: seq<byte>)
    ensures StringFrom([QUOTE] + rest, acc) == Some(Parsed(acc, rest))
  {
    assert ([QUOTE] + rest)[1..] == rest;
  }

  lemma {:induction false} StringBack(bytes: seq<byte>, acc: seq<byte>, rest: seq<byte>)
    ensures StringFrom(EscapeAll(bytes) + ([QUOTE] + rest), acc) == Some(Parsed(acc + bytes, rest))
    decreases |bytes|
  {
    hide StringFrom, Escape;
    if bytes == [] {
      assert EscapeAll(bytes) + ([QUOTE] + rest) == [QUOTE] + rest;
      EndOfString(acc, rest);
      assert acc + [] == acc;
    } else {
      var tail := EscapeAll(bytes[1..]) + ([QUOTE] + rest);
      assert EscapeAll(bytes) + ([QUOTE] + rest) == Escape(bytes[0]) + tail;
      EscapeBack(bytes[0], tail, acc);
      StringBack(bytes[1..], acc + [bytes[0]], rest);
      assert acc + [bytes[0]] + bytes[1..] == acc + bytes;
    }
  }

  /** Arbitrary byte strings, UTF-8 or not. */
  lemma QuotedBack(bytes: seq<byte>, rest: seq<byte>)
    ensures ParseString(WriteString(bytes) + rest) == Some(Parsed(bytes, rest))
  {
    var s := WriteString(bytes) + rest;
    assert s == [QUOTE] + (EscapeAll(bytes) + ([QUOTE] + rest));
    assert s[1..] == EscapeAll(bytes) + ([QUOTE] + rest);
    StringBack(bytes, [], rest);
    assert [] + bytes == bytes;
  }

  lemma FirstByte(j: Json)
    requires Writable(j)
    ensures Write(j) != [] && !IsSpace(Write(j)[0])
    ensures j.Num? ==> IsDigit(Write(j)[0]) || Write(j)[0] == 0x2D
  {
  }

  lemma NumBack(strtod: Strtod, token: seq<byte>, rest: seq<byte>)
    requires Lawful(strtod) && IntegerToken(token) && Closed(rest)
    ensures Parse(strtod, token + rest) == Some(Parsed(Num(token), rest))
  {
    var s := token + rest;
    assert s[0] == token[0] && (IsDigit(token[0]) || token[0] == 0x2D);
    assert strtod(s) == |token|;
    assert s[..|token|] == token && s[|token|..] == rest;
  }

  lemma WordBack(strtod: Strtod, rest: seq<byte>)
    ensures Parse(strtod, NULL + rest) == Some(Parsed(Null, rest))
    ensures Parse(strtod, TRUE + rest) == Some(Parsed(Bool(true), rest))
    ensures Parse(strtod, FALSE + rest) == Some(Parsed(Bool(false), rest))
  {
    assert (NULL + rest)[4..] == rest && (TRUE + rest)[4..] == rest && (FALSE + rest)[5..] == rest;
  }

  lemma StrParsed(strtod: Strtod, bytes: seq<byte>, rest: seq<byte>)
    ensures Parse(strtod, WriteString(bytes) + rest) == Some(Parsed(Str(bytes), rest))
  {
    QuotedBack(bytes, rest);
    hide StringFrom, EscapeAll;
  }

  lemma ParseArr(strtod: Strtod, t: seq<byte>)
    requires t != [] && !IsSpace(t[0])
    ensures Parse(strtod, [LBRACK] + t) ==
            if t[0] == RBRACK then Some(Parsed(Arr([]), t[1..]))
            else match Items(strtod, t) case None => None case Some(p) => Some(Parsed(Arr(p.value),
                Close(p.rest, RBRACK)))
  {
    assert ([LBRACK] + t)[1..] == t;
    hide Items;
  }

  lemma ParseObj(strtod: Strtod, t: seq<byte>)
    requires t != [] && !IsSpace(t[0])
    ensures Parse(strtod, [LBRACE] + t) ==
            if t[0] == RBRACE then Some(Parsed(Obj([]), t[1..]))
            else match Members(strtod, t) case None => None case Some(p) => Some(Parsed(Obj(p.value),
                Close(p.rest, RBRACE)))
  {
    assert ([LBRACE] + t)[1..] == t;
    hide Members;
  }

  lemma NoItems()
    ensures WriteItems([]) == [] && WriteMembers([]) == []
  {
  }

  /** An array around items that read back. */
  lemma Bracketed(items: seq<Json>, members: seq<Member>, rest: seq<byte>)
    ensures Write(Arr(items)) + rest == [LBRACK] + (WriteItems(items) + ([RBRACK] + rest))
    ensures Write(Obj(members)) + rest == [LBRACE] + (WriteMembers(members) + ([RBRACE] + rest))
  {
    var a, o := WriteItems(items), WriteMembers(members);
    hide WriteItems, WriteMembers;
    assert Write(Arr(items)) == [LBRACK] + a + [RBRACK];
    assert Write(Obj(members)) == [LBRACE] + o + [RBRACE];
  }

  lemma ArrBack(strtod: Strtod, items: seq<Json>, rest: seq<byte>)
    requires items != [] ==> WriteItems(items) != [] && !IsSpace(WriteItems(items)[0]) && WriteItems(items)[0] != RBRACK
    requires items != [] ==>
             Items(strtod, WriteItems(items) + ([RBRACK] + rest)) == Some(Parsed(items, [RBRACK] + rest))
    ensures Parse(strtod, Write(Arr(items)) + rest) == Some(Parsed(Arr(items), rest))
  {
    hide Items, Write, WriteItems, Parse;
    var t := WriteItems(items) + ([RBRACK] + rest);
    Bracketed(items, [], rest);
    assert ([RBRACK] + rest)[1..] == rest;
    if items == [] {
      NoItems();
      assert t == [RBRACK] + rest;
    }
    ParseArr(strtod, t);
  }

  lemma NotSpace(c: byte)
    requires c == RBRACE || c == QUOTE
    ensures !IsSpace(c)
  {
  }

  lemma ObjBack(strtod: Strtod, members: seq<Member>, rest: seq<byte>)
    requires members != [] ==> WriteMembers(members) != [] && WriteMembers(members)[0] == QUOTE
    requires members != [] ==>
             Members(strtod, WriteMembers(members) + ([RBRACE] + rest)) == Some(Parsed(members, [RBRACE] + rest))
    ensures Parse(strtod, Write(Obj(members)) + rest) == Some(Parsed(Obj(members), rest))
  {
    hide Members, Write, WriteMembers, Parse;
    var t := WriteMembers(members) + ([RBRACE] + rest);
    Bracketed([], members, rest);
    assert ([RBRACE] + rest)[1..] == rest;
    if members == [] {
      NoItems();
      assert t == [RBRACE] + rest;
      assert t[0] == RBRACE;
    } else {
      assert t[0] == QUOTE;
    }
    NotSpace(t[0]);
    ParseObj(strtod, t);
  }

  /** Reading a written value gives it back and stops right behind it, for every value
      built from null, booleans, byte strings, integers, arrays and objects. */
  lemma {:induction false} ParseUndoesWrite(strtod: Strtod, j: Json, rest: seq<byte>)
    requires Lawful(strtod) && Writable(j) && Closed(rest)
    ensures Parse(strtod, Write(j) + rest) == Some(Parsed(j, rest))
    decreases j, 0
  {
    match j
    case Null => WordBack(strtod, rest);
    case Bool(_) => WordBack(strtod, rest);
    case Num(token) => NumBack(strtod, token, rest);
    case Str(bytes) => StrParsed(strtod, bytes, rest);
    case Arr(items) =>
      if items != [] {
        ItemsHead(items);
        ItemsBack(strtod, items, rest);
      }
      ArrBack(strtod, items, rest);
    case Obj(members) =>
      if members != [] {
        MembersHead(members);
        MembersBack(strtod, members, rest);
      }
      ObjBack(strtod, members, rest);
  }

  lemma ItemsHead(items: seq<Json>)
    requires items != [] && forall i | i in items :: Writable(i)
    ensures WriteItems(items) != [] && !IsSpace(WriteItems(items)[0]) && WriteItems(items)[0] != RBRACK
  {
    assert items[0] in items;
    FirstByte(items[0]);
    assert Write(items[0])[0] != RBRACK by { WriteHead(items[0]); }
    hide Write;
  }

  lemma WriteHead(j: Json)
    requires Writable(j)
    ensures Write(j) != [] && Write(j)[0] != RBRACK
  {
  }

  lemma MembersHead(members: seq<Member>)
    requires members != []
    ensures WriteMembers(members) != [] && WriteMembers(members)[0] == QUOTE
  {
    hide EscapeAll, Write;
  }

  /** One item, then the comma and the others or the closing bracket. */
  lemma ItemStep(strtod: Strtod, v: Json, w: seq<byte>, tail: seq<byte>)
    requires w != [] && !IsSpace(w[0]) && tail != [] && !IsSpace(tail[0])
    requires Parse(strtod, w + tail) == Some(Parsed(v, tail))
    ensures tail[0] != COMMA ==> Items(strtod, w + tail) == Some(Parsed([v], tail))
    ensures tail[0] == COMMA && Items(strtod, tail[1..]).Some? ==>
              Items(strtod, w + tail) == Some(Parsed([v] + Items(strtod, tail[1..]).value.value,
                  Items(strtod, tail[1..]).value.rest))
  {
    hide Parse;
  }

  lemma {:induction false} ItemsBack(strtod: Strtod, items: seq<Json>, rest: seq<byte>)
    requires Lawful(strtod) && items != [] && forall i | i in items :: Writable(i)
    ensures Items(strtod, WriteItems(items) + ([RBRACK] + rest)) == Some(Parsed(items, [RBRACK] + rest))
    decreases items, 1
  {
    hide Parse, Write, Lawful, Items, Writable, WriteItems;
    var end := [RBRACK] + rest;
    assert items[0] in items;
    FirstByte(items[0]);
    if |items| == 1 {
      ParseUndoesWrite(strtod, items[0], end);
      ItemStep(strtod, items[0], Write(items[0]), end);
      assert items == [items[0]];
      LastItem(items[0]);
    } else {
      var more := items[1..];
      var tail := [COMMA] + (WriteItems(more) + end);
      assert forall i | i in more :: i in items;
      ParseUndoesWrite(strtod, items[0], tail);
      ItemsBack(strtod, more, rest);
      MoreItems(items[0], more, end);
      assert tail[1..] == WriteItems(more) + end;
      ItemStep(strtod, items[0], Write(items[0]), tail);
      assert items == [items[0]] + more;
    }
  }

  lemma LastItem(v: Json)
    ensures WriteItems([v]) == Write(v)
  {
    hide Write;
  }

  lemma MoreItems(v: Json, more: seq<Json>, end: seq<byte>)
    requires more != []
    ensures WriteItems([v] + more) + end == Write(v) + ([COMMA] + (WriteItems(more) + end))
  {
    hide Write;
    assert ([v] + more)[1..] == more;
    assert WriteItems([v] + more) == Write(v) + ([COMMA] + WriteItems(more));
  }

  lemma MemberStep(strtod: Strtod, key: seq<byte>, v: Json, w: seq<byte>, tail: seq<byte>)
    requires tail != [] && !IsSpace(tail[0])
    requires Parse(strtod, w + tail) == Some(Parsed(v, tail))
    ensures var s := WriteString(key) + ([COLON] + (w + tail));
            && (tail[0] != COMMA ==> Members(strtod, s) == Some(Parsed([Member(key, v)], tail)))
            && (tail[0] == COMMA && Members(strtod, tail[1..]).Some? ==>
                  Members(strtod, s) == Some(Parsed([Member(key, v)] + Members(strtod, tail[1..]).value.value,
                      Members(strtod, tail[1..]).value.rest)))
  {
    var t := [COLON] + (w + tail);
    QuotedBack(key, t);
    assert t[1..] == w + tail;
    assert (WriteString(key) + t)[0] == QUOTE;
    hide Parse, ParseString, WriteString;
  }

  lemma {:induction false} MembersBack(strtod: Strtod, members: seq<Member>, rest: seq<byte>)
    requires Lawful(strtod) && members != [] && forall m | m in members :: Writable(m.value)
    ensures Members(strtod, WriteMembers(members) + ([RBRACE] + rest)) == Some(Parsed(members, [RBRACE] + rest))
    decreases members, 1
  {
    hide Parse, Write, Lawful, Members, WriteString, Writable, WriteMembers;
    var end := [RBRACE] + rest;
    var m := members[0];
    assert m in members;
    if |members| == 1 {
      ParseUndoesWrite(strtod, m.value, end);
      MemberStep(strtod, m.key, m.value, Write(m.value), end);
      LastWritten(m, end);
      assert members == [m];
    } else {
      var more := members[1..];
      var tail := [COMMA] + (WriteMembers(more) + end);
      assert forall x | x in more :: x in members;
      ParseUndoesWrite(strtod, m.value, tail);
      MembersBack(strtod, more, rest);
      MoreWritten(m, more, end);
      assert tail[1..] == WriteMembers(more) + end;
      MemberStep(strtod, m.key, m.value, Write(m.value), tail);
      assert members == [m] + more;
    }
  }

  lemma LastWritten(m: Member, end: seq<byte>)
    ensures WriteMembers([m]) + end == WriteString(m.key) + ([COLON] + (Write(m.value) + end))
  {
    hide Write, WriteString;
    assert WriteMembers([m]) == WriteString(m.key) + ([COLON] + Write(m.value));
  }

  lemma MoreWritten(m: Member, more: seq<Member>, end: seq<byte>)
    requires more != []
    ensures WriteMembers([m] + more) + end ==
            WriteString(m.key) + ([COLON] + (Write(m.value) + ([COMMA] + (WriteMembers(more) + end))))
  {
    hide Write, WriteString;
    assert ([m] + more)[1..] == more;
    assert WriteMembers([m] + more) == WriteString(m.key) + ([COLON] + Write(m.value)) + ([COMMA] + WriteMembers(more));
  }

  // ---- surrogate pairs -----------------------------------------------------

  function Four(v: int): (s: seq<byte>)
    requires 0 <= v < 0x1_0000
    ensures |s| == 4
  {
    [HexCode(v / 4096), HexCode(v / 256 % 16), HexCode(v / 16 % 16), HexCode(v % 16)]
  }

  lemma FourBack(v: int, tail: seq<byte>)
    requires 0 <= v < 0x1_0000
    ensures Hex4(Four(v) + tail) == Some(v)
  {
    hide HexCode, HexValue;
    HexCodeBack(v / 4096);
    HexCodeBack(v / 256 % 16);
    HexCodeBack(v / 16 % 16);
    HexCodeBack(v % 16);
    FourDigits(v);
    var s := Four(v) + tail;
    assert s[0] == HexCode(v / 4096) && s[1] == HexCode(v / 256 % 16);
    assert s[2] == HexCode(v / 16 % 16) && s[3] == HexCode(v % 16);
  }

  lemma FourDigits(v: int)
    requires 0 <= v < 0x1_0000
    ensures ((v / 4096 * 16 + v / 256 % 16) * 16 + v / 16 % 16) * 16 + v % 16 == v
  {
    assert v / 16 == 16 * (v / 256) + v / 16 % 16;
    assert v / 256 == 16 * (v / 4096) + v / 256 % 16;
  }

  lemma JoinedBack(cp: int)
    requires 0x1_0000 <= cp < 0x11_0000
    ensures var hi, lo := 0xD800 + (cp - 0x1_0000) / 0x400, 0xDC00 + (cp - 0x1_0000) % 0x400;
            HighSurrogate(hi) && 0 <= lo < 0x1_0000 && Joined(hi, lo) == cp
  {
    var x := cp - 0x1_0000;
    assert x == x / 0x400 * 0x400 + x % 0x400;
  }

  lemma UnicodePair(hi: int, lo: int, tail: seq<byte>)
    requires HighSurrogate(hi) && 0 <= lo < 0x1_0000
    ensures Unicode(Four(hi) + ([SLASH, 0x75] + (Four(lo) + tail))) == Some(Parsed(Joined(hi, lo), tail))
  {
    var t := [SLASH, 0x75] + (Four(lo) + tail);
    FourBack(hi, t);
    FourBack(lo, tail);
    assert (Four(hi) + t)[4..] == t && t[2..] == Four(lo) + tail && t[6..] == tail;
    hide Four, Hex4, Joined;
  }

  /** Section 7 of RFC 8259: a code point above the basic plane is escaped as a pair. */
  lemma PairBack(cp: int, tail: seq<byte>)
    requires 0x1_0000 <= cp < 0x11_0000
    ensures var hi, lo := 0xD800 + (cp - 0x1_0000) / 0x400, 0xDC00 + (cp - 0x1_0000) % 0x400;
            HighSurrogate(hi) && 0 <= lo < 0x1_0000
            && Unicode(Four(hi) + ([SLASH, 0x75] + (Four(lo) + tail))) == Some(Parsed(cp, tail))
            && FromUtf8(Utf8(cp)) == Some(cp)
  {
    Utf8IsRight(cp);
    hide Four, Unicode, Utf8, FromUtf8;
    JoinedBack(cp);
    UnicodePair(0xD800 + (cp - 0x1_0000) / 0x400, 0xDC00 + (cp - 0x1_0000) % 0x400, tail);
  }

  /** A pair of escapes is read as the code point it stands for exactly when the second
      half is a low surrogate; the parser joins any two. */
  lemma JoinedExactly(hi: int, lo: int)
    requires HighSurrogate(hi) && 0 <= lo < 0x1_0000
    ensures (0x1_0000 <= Joined(hi, lo) < 0x11_0000 && Joined(hi, lo) / 0x400 * 0x400 ==
            0x1_0000 + (hi - 0xD800) * 0x400) <==>
            0xDC00 <= lo < 0xE000
  {
    var x := 0x1_0000 + (hi - 0xD800) * 0x400 + (lo - 0xDC00);
    assert -0xDC00 < x < 0x20_0000;
  }
}
