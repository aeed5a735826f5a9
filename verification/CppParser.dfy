/** The C++ parser as it runs (lib/cpp/serify.hpp): a pointer advanced through the text,
    each method tied to the function it computes. */
module CppParser {
  import opened Common
  import opened CppJson

  class Parser {
    const text: seq<byte>
    const strtod: Strtod
    var p: nat

    constructor (text: seq<byte>, strtod: Strtod)
      ensures this.text == text && this.strtod == strtod && Rest() == text
    {
      this.text := text;
      this.strtod := strtod;
      p := 0;
    }

    /** What is still to be read. */
    function Rest(): seq<byte>
      reads this
    {
      if p <= |text| then text[p..] else []
    }

    /** *p, with the NUL that ends the text. */
    function Here(): byte
      reads this
    {
      if p < |text| then text[p] else 0
    }

    method Advance(n: nat)
      modifies this
      ensures Rest() == Drop(old(Rest()), n)
    {
      p := p + n;
    }

    method SkipWs()
      modifies this
      ensures Rest() == Skip(old(Rest()))
    {
      while p < |text| && IsSpace(text[p])
        invariant Skip(Rest()) == Skip(old(Rest()))
        decreases |text| - p
      {
        assert Rest()[1..] == text[p + 1..];
        p := p + 1;
      }
    }

    /** parse_hex4, from the 'u' to the last digit. */
    method ParseHex4() returns (v: Option<int>)
      modifies this
      ensures v == Hex4(Drop(old(Rest()), 1))
      ensures v.Some? ==> p == old(p) + 4
    {
      ghost var s := Drop(Rest(), 1);
      ghost var start := p;
      var n := 0;
      for i := 0 to 4
        invariant p == start + i
        invariant i <= |s| && n == Hex(s[..i]) && forall j | 0 <= j < i :: HexValue(s[j]).Some?
      {
        p := p + 1;
        var d := HexValue(Here());
        if d.None? {
          return None;
        }
        assert s[..i + 1][..i] == s[..i];
        n := n * 16 + d.value;
      }
      assert n == Hex(s[..4]);
      HexOfFour(s);
      v := Some(n);
    }

    /** A \\u escape: p goes from the 'u' to the last digit read. */
    method ParseUnicode() returns (cp: Option<nat>)
      requires p < |text|
      modifies this
      ensures cp.None? <==> Unicode(Drop(old(Rest()), 1)).None?
      ensures cp.Some? ==> old(p) < p < |text| && Unicode(Drop(old(Rest()), 1)) == Some(Parsed(cp.value, text[p + 1..]))
    {
      ghost var s := Drop(Rest(), 1);
      var hi := ParseHex4();
      if hi.None? { return None; }
      assert s[4..] == text[p + 1..];
      if HighSurrogate(hi.value) && p + 6 < |text| && text[p + 1] == SLASH && text[p + 2] == 0x75 {
        ghost var t := s[4..];
        assert t[2..] == text[p + 3..] && t[6..] == text[p + 7..];
        p := p + 2;
        var lo := ParseHex4();
        if lo.None? { return None; }
        return Some(Joined(hi.value, lo.value));
      }
      cp := Some(hi.value);
    }

    /** One byte further. */
    method Next()
      requires p < |text|
      modifies this
      ensures p == old(p) + 1 && Rest() == old(Rest())[1..] && Rest() == text[p..]
    {
      p := p + 1;
    }

    /** One escape of a string, the backslash first. */
    method ReadEscape(out: seq<byte>) returns (more: Option<seq<byte>>)
      requires p < |text| && text[p] == SLASH
      modifies this
      ensures more.Some? ==> StringFrom(Rest(), more.value) == StringFrom(old(Rest()), out) && old(p) < p <= |text| + 1
      ensures more.None? ==> StringFrom(old(Rest()), out).None?
    {
      ghost var rest := Rest();
      assert rest == text[p..] && rest[1..] == text[p + 1..];
      hide Unicode, Utf8, Unescape;
      p := p + 1;
      if Here() == 0x75 {
        assert rest[2..] == Drop(Rest(), 1);
        var cp := ParseUnicode();
        if cp.None? { return None; }
        more := Some(out + Utf8(cp.value));
      } else {
        assert p < |text| ==> rest[2..] == text[p + 1..];
        more := Some(out + [if p < |text| then Unescape(text[p]) else 0]);
      }
      p := p + 1;
    }

    method ReadString() returns (s: Option<seq<byte>>)
      modifies this
      ensures s.Some? ==> ParseString(old(Rest())) == Some(Parsed(s.value, Rest()))
      ensures s.None? ==> ParseString(old(Rest())).None?
    {
      if Here() != QUOTE { return None; }
      ghost var all := Rest();
      Next();
      ghost var body := Rest();
      var out: seq<byte> := [];
      while p < |text| && text[p] != QUOTE
        invariant p <= |text| + 1
        invariant StringFrom(Rest(), out) == StringFrom(body, [])
        decreases |text| + 1 - p
      {
        ghost var rest := Rest();
        assert rest == text[p..];
        if text[p] == SLASH {
          hide StringFrom;
          var more := ReadEscape(out);
          if more.None? { return None; }
          out := more.value;
        } else {
          PlainByte(rest, out);
          hide StringFrom;
          out := out + [text[p]];
          Next();
        }
      }
      if p < |text| {
        Next();
      }
      s := Some(out);
    }

    method ParseValue() returns (j: Option<Json>)
      modifies this
      ensures j.Some? ==> Parse(strtod, old(Rest())) == Some(Parsed(j.value, Rest()))
      ensures j.None? ==> Parse(strtod, old(Rest())).None?
      decreases |Rest()|, 2
    {
      hide ParseString, Items, Members;
      SkipWs();
      ghost var s := Rest();
      if p >= |text| { return Some(Null); }
      if text[p] == QUOTE {
        var str := ReadString();
        return if str.None? then None else Some(Str(str.value));
      }
      if text[p] == 0x6E { Advance(4); return Some(Null); }
      if text[p] == 0x74 { Advance(4); return Some(Bool(true)); }
      if text[p] == 0x66 { Advance(5); return Some(Bool(false)); }
      if text[p] == LBRACK {
        j := ParseArray();
        return;
      }
      if text[p] == LBRACE {
        j := ParseObject();
        return;
      }
      var n := strtod(text[p..]);
      var stop := if p + n <= |text| then p + n else |text|;
      assert s[..stop - p] == text[p..stop] && s[stop - p..] == text[stop..];
      j := Some(Num(text[p..stop]));
      p := stop;
    }

    method ParseArray() returns (j: Option<Json>)
      requires p < |text| && text[p] == LBRACK
      modifies this
      ensures j.Some? ==> Parse(strtod, old(Rest())) == Some(Parsed(j.value, Rest()))
      ensures j.None? ==> Parse(strtod, old(Rest())).None?
      decreases |Rest()|, 1
    {
      BracketBegins(Rest());
      hide Items, Parse;
      Next();
      SkipWs();
      if p < |text| && text[p] == RBRACK {
        Next();
        return Some(Arr([]));
      }
      var items := ReadItems();
      if items.None? { return None; }
      StepOver(RBRACK);
      j := Some(Arr(items.value));
    }

    /** What Parse does behind an opening bracket or brace. */
    lemma BracketBegins(s: seq<byte>)
      requires s != [] && (s[0] == LBRACK || s[0] == LBRACE)
      ensures s[0] == LBRACK ==>
                Parse(strtod, s) ==
                (var t := Skip(s[1..]);
                 if t != [] && t[0] == RBRACK then Some(Parsed(Arr([]), t[1..]))
                 else
                   match Items(strtod, t)
                   case None => None
                   case Some(p) => Some(Parsed(Arr(p.value), Close(p.rest, RBRACK))))
      ensures s[0] == LBRACE ==>
                Parse(strtod, s) ==
                (var t := Skip(s[1..]);
                 if t != [] && t[0] == RBRACE then Some(Parsed(Obj([]), t[1..]))
                 else
                   match Members(strtod, t)
                   case None => None
                   case Some(p) => Some(Parsed(Obj(p.value), Close(p.rest, RBRACE))))
    {
      hide Items, Members;
    }

    method ParseObject() returns (j: Option<Json>)
      requires p < |text| && text[p] == LBRACE
      modifies this
      ensures j.Some? ==> Parse(strtod, old(Rest())) == Some(Parsed(j.value, Rest()))
      ensures j.None? ==> Parse(strtod, old(Rest())).None?
      decreases |Rest()|, 1
    {
      BracketBegins(Rest());
      hide Members, Parse;
      Next();
      SkipWs();
      if p < |text| && text[p] == RBRACE {
        Next();
        return Some(Obj([]));
      }
      var members := ReadMembers();
      if members.None? { return None; }
      StepOver(RBRACE);
      j := Some(Obj(members.value));
    }

    /** Steps over the closing bracket when it is there. */
    method StepOver(c: byte)
      modifies this
      ensures Rest() == Close(old(Rest()), c)
    {
      if p < |text| && text[p] == c {
        assert Rest()[1..] == text[p + 1..];
        p := p + 1;
      }
    }

    /** The elements of an array: one, and another after each comma. */
    method ReadItems() returns (items: Option<seq<Json>>)
      modifies this
      ensures items.Some? ==> Items(strtod, old(Rest())) == Some(Parsed(items.value, Rest()))
      ensures items.None? ==> Items(strtod, old(Rest())).None?
      decreases |Rest()|, 4
    {
      hide Parse, Items, Prepend;
      ghost var all := Rest();
      PrependNothing(Items(strtod, all));
      var out: seq<Json> := [];
      var more := true;
      while more
        invariant |Rest()| <= |all|
        invariant more ==> Items(strtod, all) == Prepend(out, Items(strtod, Rest()))
        invariant !more ==> Items(strtod, all) == Some(Parsed(out, Rest()))
        decreases more, |Rest()|
      {
        ghost var s := Rest();
        var v, comma := ReadItem();
        if v.None? {
          PrependFails(out, Items(strtod, s));
          return None;
        }
        if comma {
          PrependTwice(out, [v.value], Items(strtod, Rest()));
        } else {
          PrependSome(out, [v.value], Rest());
          more := false;
        }
        out := out + [v.value];
      }
      items := Some(out);
    }

    /** One element, and whether a comma follows it. */
    method ReadItem() returns (v: Option<Json>, comma: bool)
      modifies this
      ensures v.None? ==> Items(strtod, old(Rest())).None?
      ensures v.Some? && comma ==>
              |Rest()| < |old(Rest())| && Items(strtod, old(Rest())) == Prepend([v.value], Items(strtod, Rest()))
      ensures v.Some? && !comma ==>
              |Rest()| <= |old(Rest())| && Items(strtod, old(Rest())) == Some(Parsed([v.value], Rest()))
      decreases |Rest()|, 3
    {
      hide Parse;
      comma := false;
      SkipWs();
      v := ParseValue();
      if v.None? { return; }
      SkipWs();
      if p < |text| && text[p] == COMMA {
        comma := true;
        Next();
      }
    }

    method ReadMembers() returns (members: Option<seq<Member>>)
      modifies this
      ensures members.Some? ==> Members(strtod, old(Rest())) == Some(Parsed(members.value, Rest()))
      ensures members.None? ==> Members(strtod, old(Rest())).None?
      decreases |Rest()|, 4
    {
      hide Parse, ParseString, Members, Prepend;
      ghost var all := Rest();
      PrependNothing(Members(strtod, all));
      var out: seq<Member> := [];
      var more := true;
      while more
        invariant |Rest()| <= |all|
        invariant more ==> Members(strtod, all) == Prepend(out, Members(strtod, Rest()))
        invariant !more ==> Members(strtod, all) == Some(Parsed(out, Rest()))
        decreases more, |Rest()|
      {
        ghost var s := Rest();
        var m, comma := ReadMember();
        if m.None? {
          PrependFails(out, Members(strtod, s));
          return None;
        }
        if comma {
          PrependTwice(out, [m.value], Members(strtod, Rest()));
        } else {
          PrependSome(out, [m.value], Rest());
          more := false;
        }
        out := out + [m.value];
      }
      members := Some(out);
    }

    /** One member, and whether a comma follows it. */
    method ReadMember() returns (m: Option<Member>, comma: bool)
      modifies this
      ensures m.None? ==> Members(strtod, old(Rest())).None?
      ensures m.Some? && comma ==>
              |Rest()| < |old(Rest())| && Members(strtod, old(Rest())) == Prepend([m.value], Members(strtod, Rest()))
      ensures m.Some? && !comma ==>
              |Rest()| <= |old(Rest())| && Members(strtod, old(Rest())) == Some(Parsed([m.value], Rest()))
      decreases |Rest()|, 3
    {
      hide Parse, ParseString, Skip;
      comma := false;
      SkipWs();
      var k := ReadString();
      if k.None? { return None, false; }
      SkipWs();
      if Here() != COLON { return None, false; }
      Next();
      var v := ParseValue();
      if v.None? { return None, false; }
      m := Some(Member(k.value, v.value));
      SkipWs();
      if p < |text| && text[p] == COMMA {
        comma := true;
        Next();
      }
    }
  }

  /** Hex digits read so far. */
  function Hex(s: seq<byte>): int {
    if s == [] then 0
    else Hex(s[..|s| - 1]) * 16 + (match HexValue(s[|s| - 1]) case None => 0 case Some(v) => v)
  }

  lemma HexOfFour(s: seq<byte>)
    requires |s| >= 4 && forall j | 0 <= j < 4 :: HexValue(s[j]).Some?
    ensures Hex4(s) == Some(Hex(s[..4]))
  {
    assert s[..4][..3] == s[..3] && s[..3][..2] == s[..2] && s[..2][..1] == s[..1] && s[..1][..0] == [];
    hide HexValue;
    assert Hex(s[..1]) == HexValue(s[0]).value;
    assert Hex(s[..2]) == Hex(s[..1]) * 16 + HexValue(s[1]).value;
    assert Hex(s[..3]) == Hex(s[..2]) * 16 + HexValue(s[2]).value;
  }

  /** What was read before, in front of what is read next. */
  function Prepend<T>(head: seq<T>, r: Option<Parsed<seq<T>>>): Option<Parsed<seq<T>>> {
    match r case None => None case Some(p) => Some(Parsed(head + p.value, p.rest))
  }

  lemma PrependTwice<T>(a: seq<T>, b: seq<T>, r: Option<Parsed<seq<T>>>)
    ensures Prepend(a, Prepend(b, r)) == Prepend(a + b, r)
  {
    if r.Some? {
      assert a + (b + r.value.value) == (a + b) + r.value.value;
    }
  }

  lemma PrependNothing<T>(r: Option<Parsed<seq<T>>>)
    ensures Prepend([], r) == r
  {
    if r.Some? {
      assert [] + r.value.value == r.value.value;
    }
  }

  lemma PrependFails<T>(head: seq<T>, r: Option<Parsed<seq<T>>>)
    ensures r.None? ==> Prepend(head, r).None?
  {
  }

  lemma PrependSome<T>(head: seq<T>, tail: seq<T>, rest: seq<byte>)
    ensures Prepend(head, Some(Parsed(tail, rest))) == Some(Parsed(head + tail, rest))
  {
  }

  /** An unescaped byte of a string is taken as it is. */
  lemma PlainByte(s: seq<byte>, acc: seq<byte>)
    requires s != [] && s[0] != QUOTE && s[0] != SLASH
    ensures StringFrom(s, acc) == StringFrom(s[1..], acc + [s[0]])
  {
  }

  /** A whole document: what the writer wrote is read back, whatever the value. */
  method ParseDocument(text: seq<byte>, strtod: Strtod) returns (j: Option<Json>)
    ensures j.None? <==> Parse(strtod, text).None?
    ensures j.Some? ==> j.value == Parse(strtod, text).value.value
    ensures forall v | Lawful(strtod) && Writable(v) && text == Write(v) :: j == Some(v)
  {
    hide Parse, Write, Writable, Lawful;
    var parser := new Parser(text, strtod);
    j := parser.ParseValue();
    forall v | Lawful(strtod) && Writable(v) && text == Write(v) ensures j == Some(v) {
      ParseUndoesWrite(strtod, v, []);
      assert Write(v) + [] == Write(v);
    }
  }
}
