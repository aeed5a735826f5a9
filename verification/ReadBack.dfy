/** Which types read back: for every type at all, parsing its printed form
    (FieldType.String, schemaResolver.typeOf) gives the expression it stands for exactly
    when the form is readable. */
module ReadBack {
  import opened Common
  import opened Text
  import opened TypeLang

  /** The expression a type stands for; a sum has none. */
  function Stands(t: FieldType): Option<TypeExpr>
    decreases t
  {
    match t
    case Scalar(k) => Some(XScalar(k))
    case Struct(_) => Some(XStruct)
    case Optional(e) => (match Stands(e) case Some(x) => Some(XOptional(x)) case None => None)
    case List(e) => (match Stands(e) case Some(x) => Some(XList(x)) case None => None)
    case Array(e, n) => (match Stands(e) case Some(x) => Some(XArray(x, Some(n))) case None => None)
    case Map(k, e) =>
      (match (Stands(k), Stands(e)) case (Some(x), Some(y)) => Some(XMap(x, y)) case _ => None)
    case Enum(values) => Some(XEnum(values))
    case Sum(_) => None
  }

  predicate EnumReadable(values: seq<string>) {
    values != [] && forall v | v in values :: v != "" && Trimmed(v) && ',' !in v && '\n' !in v
  }

  /** No sum; sizes of 64 bits; enum names that are not empty, trimmed, and free of
      commas and line breaks; and for a map, a key whose text is balanced and a value
      whose text shows no comma outside brackets. */
  predicate Readable(t: FieldType)
    decreases t
  {
    match t
    case Scalar(_) => true
    case Struct(_) => true
    case Optional(e) => Readable(e)
    case List(e) => Readable(e)
    case Array(e, n) => Readable(e) && -0x8000_0000_0000_0000 <= n < 0x8000_0000_0000_0000
    case Map(k, e) => Readable(k) && Readable(e) && Scan(Print(k), 0) == Some(0) && Scan(Print(e), 0).Some?
    case Enum(values) => EnumReadable(values)
    case Sum(_) => false
  }

  // ---- counting characters -------------------------------------------------

  function Count(c: char, s: string): nat {
    if s == "" then 0 else (if s[0] == c then 1 else 0) + Count(c, s[1..])
  }

  lemma {:induction false} CountConcat(c: char, s: string, t: string)
    ensures Count(c, s + t) == Count(c, s) + Count(c, t)
  {
    if s == "" {
      assert s + t == t;
    } else {
      assert (s + t)[1..] == s[1..] + t;
      CountConcat(c, s[1..], t);
    }
  }

  lemma CountOne(c: char, d: char)
    ensures Count(c, [d]) == if c == d then 1 else 0
  {
    assert [d][1..] == "";
  }

  lemma {:induction false} CountNone(c: char, s: string)
    ensures Count(c, s) == 0 <==> c !in s
  {
    if s != "" { CountNone(c, s[1..]); }
  }

  /** `a` with a separator and `b`. */
  lemma CountPair(c: char, a: string, d: char, b: string)
    ensures Count(c, a + [d] + b) == Count(c, a) + (if c == d then 1 else 0) + Count(c, b)
  {
    CountConcat(c, a + [d], b);
    CountConcat(c, a, [d]);
    CountOne(c, d);
  }

  lemma CountWrap(c: char, outer: string, inner: string)
    ensures Count(c, Wrap(outer, inner)) >= Count(c, inner)
  {
    assert Wrap(outer, inner) == (outer + "<") + inner + ">";
    CountConcat(c, outer + "<" + inner, ">");
    CountConcat(c, outer + "<", inner);
  }

  lemma {:induction false} CountTrimLeft(c: char, s: string)
    ensures Count(c, TrimLeft(s)) <= Count(c, s)
    ensures !IsSpace(c) ==> Count(c, TrimLeft(s)) == Count(c, s)
  {
    if s != "" && IsSpace(s[0]) { CountTrimLeft(c, s[1..]); }
  }

  lemma {:induction false} CountTrimRight(c: char, s: string)
    ensures Count(c, TrimRight(s)) <= Count(c, s)
    ensures !IsSpace(c) ==> Count(c, TrimRight(s)) == Count(c, s)
  {
    if s != "" && IsSpace(s[|s| - 1]) {
      var init, last := s[..|s| - 1], s[|s| - 1];
      assert s == init + [last];
      CountConcat(c, init, [last]);
      CountOne(c, last);
      CountTrimRight(c, init);
    }
  }

  lemma CountTrim(c: char, s: string)
    ensures Count(c, Trim(s)) <= Count(c, s)
    ensures !IsSpace(c) ==> Count(c, Trim(s)) == Count(c, s)
  {
    CountTrimLeft(c, s);
    CountTrimRight(c, TrimLeft(s));
  }

  function CountAll(c: char, vs: seq<string>): nat {
    if vs == [] then 0 else Count(c, vs[0]) + CountAll(c, vs[1..])
  }

  lemma {:induction false} SplitCounts(c: char, s: string)
    ensures c != ',' ==> CountAll(c, SplitCommas(s)) == Count(c, s)
    ensures |SplitCommas(s)| == Count(',', s) + 1
  {
    if s != "" {
      SplitCounts(c, s[1..]);
      var rest, all := SplitCommas(s[1..]), SplitCommas(s);
      if s[0] == ',' {
        assert all[1..] == rest;
      } else {
        assert all[1..] == rest[1..] && all[0] == [s[0]] + rest[0];
        CountConcat(c, [s[0]], rest[0]);
        CountOne(c, s[0]);
      }
    }
  }

  lemma {:induction false} ValuesCount(c: char, pieces: seq<string>)
    requires !IsSpace(c)
    ensures CountAll(c, EnumValues(pieces)) == CountAll(c, pieces) && |EnumValues(pieces)| <= |pieces|
  {
    hide Trim, Count, IsSpace;
    if pieces != [] {
      ValuesCount(c, pieces[1..]);
      CountTrim(c, pieces[0]);
      CountNone(c, "");
      var values := EnumValues(pieces);
      assert Trim(pieces[0]) != "" ==> values[1..] == EnumValues(pieces[1..]);
    }
  }

  lemma {:induction false} JoinCounts(c: char, values: seq<string>)
    requires values != []
    ensures c != ',' ==> Count(c, JoinCommas(values)) == CountAll(c, values)
    ensures (forall v | v in values :: ',' !in v) ==> Count(',', JoinCommas(values)) == |values| - 1
  {
    hide Count;
    CountNone(',', values[0]);
    if |values| > 1 {
      JoinCounts(c, values[1..]);
      CountPair(c, values[0], ',', JoinCommas(values[1..]));
      CountPair(',', values[0], ',', JoinCommas(values[1..]));
      assert values[0] in values && forall v | v in values[1..] :: v in values;
    } else {
      assert values[1..] == [];
      assert values[0] in values;
    }
  }

  // ---- what a text must hold -----------------------------------------------

  /** A text reads as a leaf, or as the form of a word applied to a part of it. */
  lemma Applies(names: set<string>, s: string) returns (outer: string, inner: string)
    ensures var x := Parse(names, s);
            x.XScalar? || x.XStruct? || x.XNamed? || x.XError? || x == ParseApplied(names, outer, inner)
    ensures forall c :: Count(c, inner) <= Count(c, s)
  {
    var t := Unalias(Trim(s));
    hide ParseApplied, Trim, KindOf, Count, MatchApplied;
    outer, inner := "", "";
    forall c ensures Count(c, inner) <= Count(c, s) { CountNone(c, ""); }
    if KindOf(t).None? && t != STRUCT && t !in names && MatchApplied(t).Some? {
      assert t == Trim(s) by { KindOfName(Float32); KindOfName(Float64); KindOfName(Bool); }
      outer, inner := MatchApplied(t).value.outer, MatchApplied(t).value.inner;
      forall c ensures Count(c, inner) <= Count(c, s) {
        CountWrap(c, outer, inner);
        CountTrim(c, s);
      }
    }
  }

  /** The commas of the printed form are needed to read the type. */
  lemma {:induction false} CommasNeeded(names: set<string>, s: string, t: FieldType)
    requires Some(Parse(names, s)) == Stands(t)
    ensures Count(',', s) >= Count(',', Print(t))
    decreases t
  {
    var outer, inner := Applies(names, s);
    hide Parse, ParseApplied, Count;
    match t
    case Scalar(k) => NoCommas(KindName(k));
    case Struct(_) => NoCommas(STRUCT);
    case Optional(e) =>
      ReadsOne(names, outer, inner);
      CommasNeeded(names, inner, e);
      WrappedCommas(FOptional, Print(e));
    case List(e) =>
      ReadsOne(names, outer, inner);
      CommasNeeded(names, inner, e);
      WrappedCommas(FList, Print(e));
    case Array(e, n) =>
      var comma := ReadsArray(names, outer, inner);
      CommasNeeded(names, inner[..comma], e);
      IntTextTrimmed(n);
      CountNone(',', IntText(n));
      CountPair(',', Print(e), ',', IntText(n));
      WrappedCommas(FArray, Print(e) + "," + IntText(n));
    case Map(k, e) =>
      var p, q := ReadsMap(names, outer, inner);
      CommasNeeded(names, p, k);
      CommasNeeded(names, q, e);
      CountPair(',', Print(k), ',', Print(e));
      WrappedCommas(FMap, Print(k) + "," + Print(e));
    case Enum(values) =>
      ReadsEnum(names, outer, inner);
      EnumCommas(inner, values);
      WrappedCommas(FEnum, JoinCommas(values));
  }

  lemma NoCommas(s: string)
    requires IsWord(s)
    ensures Count(',', s) == 0
  {
    CountNone(',', s);
    assert !IsWordChar(',');
  }

  lemma WrappedCommas(f: Former, inner: string)
    ensures Count(',', Wrap(FormerName(f), inner)) == Count(',', inner)
  {
    var outer := FormerName(f);
    hide Count, FormerName;
    assert Wrap(outer, inner) == (outer + ['<'] + inner) + ">";
    CountConcat(',', outer + ['<'] + inner, ">");
    CountPair(',', outer, '<', inner);
    NoCommas(outer);
    CountOne(',', '>');
  }

  lemma ReadsOne(names: set<string>, outer: string, inner: string)
    ensures var x := ParseApplied(names, outer, inner);
            x.XOptional? || x.XList? ==>
              x == (if x.XOptional? then XOptional(Parse(names, inner)) else XList(Parse(names, inner)))
  {
    hide Parse, KeyValue, EnumValues, SplitCommas;
  }

  lemma ReadsArray(names: set<string>, outer: string, inner: string) returns (comma: int)
    ensures ParseApplied(names, outer, inner).XArray? ==>
              && 0 <= comma < |inner| && comma == LastComma(inner) && inner[comma] == ','
              && ParseApplied(names, outer, inner) ==
                XArray(Parse(names, inner[..comma]), Atoi(Trim(inner[comma + 1..])))
    ensures 0 <= comma < |inner| ==> Count(',', inner) == Count(',', inner[..comma]) + 1
  {
    hide Parse, KeyValue, EnumValues, SplitCommas, Count, Atoi, Trim;
    comma := LastComma(inner);
    if comma >= 0 {
      assert inner == inner[..comma] + [','] + inner[comma + 1..];
      CountPair(',', inner[..comma], ',', inner[comma + 1..]);
      CountNone(',', inner[comma + 1..]);
    }
  }

  lemma ReadsMap(names: set<string>, outer: string, inner: string) returns (p: string, q: string)
    ensures ParseApplied(names, outer, inner).XMap? ==>
              && TopLevelParts(inner, 0) == [p, q] && inner == p + [','] + q
              && ParseApplied(names, outer, inner) == XMap(Parse(names, p), Parse(names, q))
              && Count(',', inner) == Count(',', p) + 1 + Count(',', q)
  {
    hide Parse, EnumValues, SplitCommas, Count, Atoi, Trim, LastComma;
    p, q := "", "";
    if ParseApplied(names, outer, inner).XMap? {
      var kv := TopLevelParts(inner, 0);
      p, q := kv[0], kv[1];
      PartsRejoin(inner, 0);
      assert kv[1..] == [q] && kv == [p, q];
      CountPair(',', p, ',', q);
      ParseTrims(names, q);
    }
  }

  lemma TrimTwice(s: string)
    ensures Trim(Trim(s)) == Trim(s)
  {
  }

  /** Reading trims first. */
  lemma ParseTrims(names: set<string>, s: string)
    ensures Parse(names, Trim(s)) == Parse(names, s)
  {
    hide Trim, KindOf, MatchApplied, Unalias, ParseApplied;
    TrimTwice(s);
  }

  lemma ReadsEnum(names: set<string>, outer: string, inner: string)
    ensures var x := ParseApplied(names, outer, inner); x.XEnum? ==> x == XEnum(EnumValues(SplitCommas(inner)))
  {
    hide Parse, KeyValue, EnumValues, SplitCommas, LastComma;
  }

  lemma EnumCommas(inner: string, values: seq<string>)
    requires EnumValues(SplitCommas(inner)) == values
    ensures Count(',', inner) >= Count(',', JoinCommas(values))
  {
    hide Count, SplitCommas, EnumValues;
    SplitCounts('>', inner);
    ValuesCount('>', SplitCommas(inner));
    EnumValuesPlain(SplitCommas(inner));
    if values != [] {
      JoinCounts('>', values);
    } else {
      CountNone(',', JoinCommas(values));
    }
  }

  // ---- text behind a printed type ------------------------------------------

  lemma NeverLeaf(names: set<string>, outer: string, inner: string)
    ensures !ParseApplied(names, outer, inner).XScalar? && !ParseApplied(names, outer, inner).XStruct?
  {
    hide Parse, KeyValue, EnumValues, SplitCommas, LastComma;
  }

  lemma WordBehind(names: set<string>, word: string, c: char, w: string)
    requires IsWord(word) && (c == ',' || c == '>')
    ensures var x := Parse(names, word + [c] + w); !x.XScalar? && !x.XStruct?
  {
    var p := word + [c] + w;
    CountPair(c, word, c, w);
    CountTrim(c, p);
    CountNone(c, Trim(p));
    hide Count, Trim, KindOf, MatchApplied, ParseApplied;
    assert !IsWordChar(',') && !IsWordChar('>');
    assert !IsWord(Trim(p));
    AliasesAreWords();
    assert IsWord(STRUCT);
    var t := Unalias(Trim(p));
    assert KindOf(t).None? && t != STRUCT;
    if MatchApplied(t).Some? { NeverLeaf(names, MatchApplied(t).value.outer, MatchApplied(t).value.inner); }
  }

  /** Trimming text that starts with something keeps everything up to any other something. */
  lemma {:induction false} TrimKeeps(p: string, i: nat)
    requires p != "" && !IsSpace(p[0]) && i < |p| && !IsSpace(p[i])
    ensures Trim(p) <= p && |Trim(p)| > i
  {
    assert TrimLeft(p) == p;
    TrimRightKeeps(p, i);
  }

  lemma {:induction false} TrimRightKeeps(p: string, i: nat)
    requires i < |p| && !IsSpace(p[i])
    ensures |TrimRight(p)| > i
  {
    if IsSpace(p[|p| - 1]) { TrimRightKeeps(p[..|p| - 1], i); }
  }

  /** An applied form with text behind it reads as the form applied to more text, or not
      at all. */
  lemma Behind(names: set<string>, f: Former, body: string, c: char, w: string) returns (more: string)
    requires (c == ',' || c == '>') && forall n | n in names :: '<' !in n
    ensures var x := Parse(names, Wrap(FormerName(f), body) + [c] + w);
            x.XError? || x == ParseApplied(names, FormerName(f), body + ['>'] + more)
  {
    var head := Wrap(FormerName(f), body);
    var p := head + [c] + w;
    HeadKept(f, body, p);
    var s := Trim(p);
    ParseTrims(names, p);
    hide Parse, ParseApplied, Wrap, Trim, FormerName, KindOf, Unalias, MatchApplied, IsSpace;
    more := p[|head|..|s| - 1];
    if s[|s| - 1] == '>' {
      BehindText(FormerName(f), body, p, s, more);
      WrappedHead(names, f, body + ['>'] + more);
    } else {
      Unmatched(names, f, body, s);
    }
  }

  lemma HeadKept(f: Former, body: string, p: string)
    requires Wrap(FormerName(f), body) < p &&
             (p[|Wrap(FormerName(f), body)|] == ',' || p[|Wrap(FormerName(f), body)|] == '>')
    ensures Trim(p) <= p && |Trim(p)| > |Wrap(FormerName(f), body)|
  {
    var outer := FormerName(f);
    assert IsWordChar(outer[0]) && p[0] == Wrap(outer, body)[0] == outer[0];
    hide Trim, Wrap;
    TrimKeeps(p, |Wrap(outer, body)|);
  }

  lemma HasBracket(f: Former, body: string, s: string)
    requires Wrap(FormerName(f), body) < s
    ensures '<' in s
  {
    var outer := FormerName(f);
    assert s[|outer|] == Wrap(outer, body)[|outer|] == '<';
  }

  lemma NoMatchEnd(s: string)
    requires s != "" && s[|s| - 1] != '>'
    ensures MatchApplied(s).None?
  {
  }

  lemma Unmatched(names: set<string>, f: Former, body: string, s: string)
    requires forall n | n in names :: '<' !in n
    requires Wrap(FormerName(f), body) < s && Trim(s) == s && s[|s| - 1] != '>'
    ensures Parse(names, s).XError?
  {
    hide Parse, ParseApplied, Trim, KindOf, Unalias, MatchApplied, Wrap, FormerName;
    HasBracket(f, body, s);
    NotAWord(s);
    NoMatchEnd(s);
    ParseNoMatch(names, s);
  }

  lemma BehindText(outer: string, body: string, p: string, s: string, more: string)
    requires Wrap(outer, body) < p && s <= p && |s| > |Wrap(outer, body)| && s[|s| - 1] == '>'
    requires more == p[|Wrap(outer, body)|..|s| - 1]
    ensures s == Wrap(outer, body + ['>'] + more)
  {
    var head := Wrap(outer, body);
    assert p == head + p[|head|..];
    assert s == p[..|s|] == head + more + ">";
    assert head + more + ">" == outer + "<" + (body + ['>'] + more) + ">";
  }

  lemma AtoiDigits(s: string)
    requires Atoi(s).Some?
    ensures '>' !in s
  {
    assert !IsDigit('>');
  }

  lemma {:induction false} OneBehind(names: set<string>, f: Former, e: FieldType, c: char, w: string)
    requires (f == FOptional || f == FList) && (c == ',' || c == '>')
    requires forall n | n in names :: '<' !in n
    ensures Stands(e).Some? ==> Parse(names, Wrap(FormerName(f), Print(e)) + [c] + w) !=
                                (if f == FList then XList(Stands(e).value) else XOptional(Stands(e).value))
    decreases e, 2
  {
    var more := Behind(names, f, Print(e), c, w);
    ReadsOne(names, FormerName(f), Print(e) + ['>'] + more);
    hide Parse, ParseApplied, Wrap, FormerName, Print, Stands;
    NothingBehind(names, e, '>', more);
  }

  /** A printed form with anything behind it, opened by a comma or a closing bracket, does
      not read as its type. */
  lemma {:induction false} NothingBehind(names: set<string>, t: FieldType, c: char, w: string)
    requires c == ',' || c == '>'
    requires forall n | n in names :: '<' !in n
    ensures Some(Parse(names, Print(t) + [c] + w)) != Stands(t)
    decreases t, 1
  {
    hide Parse, ParseApplied, Wrap, FormerName;
    match t
    case Scalar(k) => WordBehind(names, KindName(k), c, w);
    case Struct(_) => WordBehind(names, STRUCT, c, w);
    case Optional(e) => OneBehind(names, FOptional, e, c, w);
    case List(e) => OneBehind(names, FList, e, c, w);
    case Array(e, n) =>
      var more := Behind(names, FArray, Print(e) + "," + IntText(n), c, w);
      ArrayBehind(names, e, n, more);
    case Map(k, e) =>
      var more := Behind(names, FMap, Print(k) + "," + Print(e), c, w);
      MapBehind(names, k, e, more);
    case Enum(values) =>
      var more := Behind(names, FEnum, JoinCommas(values), c, w);
      ReadsEnum(names, FormerName(FEnum), JoinCommas(values) + ['>'] + more);
      EnumBehind(values, more);
    case Sum(_) =>
  }

  lemma {:induction false} ArrayBehind(names: set<string>, e: FieldType, n: int, more: string)
    requires forall m | m in names :: '<' !in m
    ensures Stands(e).Some? ==>
            ParseApplied(names, FormerName(FArray), Print(e) + "," + IntText(n) + ['>'] + more) !=
              XArray(Stands(e).value, Some(n))
    decreases e, 2
  {
    var elem, size := Print(e), IntText(n) + ['>'] + more;
    var inner := elem + "," + IntText(n) + ['>'] + more;
    var comma := ReadsArray(names, FormerName(FArray), inner);
    hide Parse, ParseApplied, Print, IntText, Atoi, Trim, FormerName, Stands;
    assert inner == elem + "," + size && inner[|elem|] == ',';
    if 0 <= comma < |inner| && comma == LastComma(inner) {
      if comma == |elem| {
        assert inner[comma + 1..] == size;
        CountPair('>', IntText(n), '>', more);
        CountTrim('>', size);
        CountNone('>', Trim(size));
        if Atoi(Trim(size)).Some? { AtoiDigits(Trim(size)); }
      } else {
        assert comma > |elem|;
        assert inner[..comma] == elem + [','] + inner[|elem| + 1..comma];
        NothingBehind(names, e, ',', inner[|elem| + 1..comma]);
      }
    }
  }

  lemma Aligned(key: string, rest: string, p: string, q: string)
    requires key + [','] + rest == p + [','] + q
    ensures |p| < |key| ==> key == p + [','] + key[|p| + 1..]
    ensures |p| > |key| ==> p == key + [','] + p[|key| + 1..]
    ensures |p| == |key| ==> p == key && q == rest
  {
    var inner := key + [','] + rest;
    assert inner[..|key|] == key && inner[|key|] == ',' && inner[|key| + 1..] == rest;
    assert inner[..|p|] == p && inner[|p|] == ',' && inner[|p| + 1..] == q;
    if |p| < |key| {
      assert p == key[..|p|] && key[|p|] == ',';
    } else if |p| > |key| {
      assert key == p[..|key|] && p[|key|] == ',';
    }
  }

  /** Where a map's text is cut is where the key ends. */
  lemma {:induction false} CutAtKey(names: set<string>, k: FieldType, rest: string, p: string, q: string)
    requires forall m | m in names :: '<' !in m
    requires Print(k) + [','] + rest == p + [','] + q && Some(Parse(names, p)) == Stands(k)
    ensures p == Print(k) && q == rest
    decreases k, 2
  {
    hide Parse, Print, Stands, Count;
    var key := Print(k);
    Aligned(key, rest, p, q);
    if |p| < |key| {
      CommasNeeded(names, p, k);
      CountPair(',', p, ',', key[|p| + 1..]);
    } else if |p| > |key| {
      NothingBehind(names, k, ',', p[|key| + 1..]);
    }
  }

  lemma {:induction false} MapBehind(names: set<string>, k: FieldType, e: FieldType, more: string)
    requires forall m | m in names :: '<' !in m
    ensures Stands(k).Some? && Stands(e).Some? ==>
            ParseApplied(names, FormerName(FMap), Print(k) + "," + Print(e) + ['>'] + more) !=
              XMap(Stands(k).value, Stands(e).value)
    decreases Map(k, e), 0
  {
    var inner := Print(k) + "," + Print(e) + ['>'] + more;
    var p, q := ReadsMap(names, FormerName(FMap), inner);
    hide Parse, ParseApplied, Print, FormerName, Stands, TopLevelParts;
    if Stands(k).Some? && Stands(e).Some? &&
        ParseApplied(names, FormerName(FMap), inner) == XMap(Stands(k).value, Stands(e).value) {
      var rest := Print(e) + ['>'] + more;
      assert inner == Print(k) + [','] + rest;
      CutAtKey(names, k, rest, p, q);
      NothingBehind(names, e, '>', more);
    }
  }

  lemma EnumBehind(values: seq<string>, more: string)
    ensures EnumValues(SplitCommas(JoinCommas(values) + ['>'] + more)) != values
  {
    var inner := JoinCommas(values) + ['>'] + more;
    hide Count, SplitCommas, EnumValues;
    SplitCounts('>', inner);
    ValuesCount('>', SplitCommas(inner));
    CountPair('>', JoinCommas(values), '>', more);
    if values != [] { JoinCounts('>', values); }
  }

  // ---- the two directions --------------------------------------------------

  /** A readable form is one trimmed line. */
  lemma {:induction false} ReadableLine(t: FieldType)
    requires Readable(t)
    ensures Print(t) != "" && '\n' !in Print(t)
    decreases t
  {
    match t
    case Scalar(k) => WordNeat(KindName(k), 0);
    case Struct(_) => WordNeat(STRUCT, 0);
    case Optional(e) => ReadableLine(e); WrapLine(FOptional, Print(e));
    case List(e) => ReadableLine(e); WrapLine(FList, Print(e));
    case Array(e, n) => ReadableLine(e); IntTextTrimmed(n); WrapLine(FArray, Print(e) + "," + IntText(n));
    case Map(k, e) => ReadableLine(k); ReadableLine(e); WrapLine(FMap, Print(k) + "," + Print(e));
    case Enum(values) => JoinedText(values); WrapLine(FEnum, JoinCommas(values));
  }

  lemma WrapLine(f: Former, inner: string)
    requires '\n' !in inner
    ensures '\n' !in Wrap(FormerName(f), inner) && Wrap(FormerName(f), inner) != ""
  {
    WordNeat(FormerName(f), 0);
  }

  lemma {:induction false} FirstShorter(a: string, t: string, depth: int)
    requires Scan(a, depth).None?
    ensures |TopLevelParts(a + t, depth)[0]| < |a|
  {
    assert (a + t)[1..] == a[1..] + t;
    if !(a[0] == ',' && depth == 0) { FirstShorter(a[1..], t, depth + Step(a[0])); }
  }

  /** The text is cut into exactly its two arguments when the first is balanced and the
      second shows no comma outside brackets, and only then. */
  lemma PairExactly(a: string, b: string)
    ensures TopLevelParts(a + [','] + b, 0) == [a, b] <==> Scan(a, 0) == Some(0) && Scan(b, 0).Some?
  {
    assert a + [','] + b == a + ([','] + b) && ([','] + b)[1..] == b;
    if Scan(a, 0).None? {
      FirstShorter(a, [','] + b, 0);
      assert TopLevelParts(a + [','] + b, 0)[0] != a;
    } else {
      PartsAfterScan(a, [','] + b, 0);
      var depth := Scan(a, 0).value;
      if depth != 0 {
        assert TopLevelParts([','] + b, depth)[0] == [','] + TopLevelParts(b, depth)[0];
      } else {
        assert a + "" == a;
        var rest := TopLevelParts(b, 0);
        assert TopLevelParts(a + ([','] + b), 0) == [a] + rest;
        assert ([a] + rest)[1..] == rest && [a, b][1..] == [b] && [a] + [b] == [a, b];
        OnePartExactly(b);
      }
    }
  }

  lemma OnePartExactly(b: string)
    ensures TopLevelParts(b, 0) == [b] <==> Scan(b, 0).Some?
  {
    assert b + "" == b;
    if Scan(b, 0).None? { FirstShorter(b, "", 0); } else { PartsAfterScan(b, "", 0); }
  }

  lemma MapReads(names: set<string>, k: FieldType, e: FieldType)
    requires forall n | n in names :: '<' !in n
    requires Scan(Print(k), 0) == Some(0) && Scan(Print(e), 0).Some?
    ensures ParseApplied(names, FormerName(FMap), Print(k) + "," + Print(e)) ==
            XMap(Parse(names, Print(k)), Parse(names, Print(e)))
  {
    FormerOfName(FMap);
    var a, b := Print(k), Print(e);
    hide Parse, Print, FormerName, Scan, TopLevelParts, Trim;
    assert a + "," + b == a + [','] + b;
    PairExactly(a, b);
    ParseTrims(names, b);
  }

  lemma {:induction false} MapExactly(names: set<string>, k: FieldType, e: FieldType)
    requires forall n | n in names :: '<' !in n
    requires Some(Parse(names, Print(k))) == Stands(k) <==> Readable(k)
    requires Some(Parse(names, Print(e))) == Stands(e) <==> Readable(e)
    ensures Some(Parse(names, Print(Map(k, e)))) == Stands(Map(k, e)) <==> Readable(Map(k, e))
  {
    hide Parse, ParseApplied, Wrap, FormerName, TopLevelParts, Scan;
    var t, inner := Map(k, e), Print(k) + "," + Print(e);
    assert Print(t) == Wrap(FormerName(FMap), inner);
    WrappedHead(names, FMap, inner);
    if Readable(t) {
      MapReads(names, k, e);
      ReadableLine(k);
      ReadableLine(e);
    } else if Some(Parse(names, Print(t))) == Stands(t) {
      var p, q := ReadsMap(names, FormerName(FMap), inner);
      assert inner == Print(k) + [','] + Print(e);
      CutAtKey(names, k, Print(e), p, q);
      PairExactly(Print(k), Print(e));
    }
  }

  /** For every type whatsoever, and whatever types without a '<' in their name are
      registered: reading its printed form gives the expression it stands for exactly
      when the form is readable. */
  lemma {:induction false} ReadsBackExactly(names: set<string>, t: FieldType)
    requires forall n | n in names :: '<' !in n
    ensures Some(Parse(names, Print(t))) == Stands(t) <==> Readable(t)
    decreases t
  {
    match t
    case Scalar(k) => ParseScalar(names, k);
    case Struct(_) => ParseStruct(names);
    case Optional(e) =>
      ReadsBackExactly(names, e);
      OneExactly(names, FOptional, e);
    case List(e) =>
      ReadsBackExactly(names, e);
      OneExactly(names, FList, e);
    case Array(e, n) =>
      ReadsBackExactly(names, e);
      ArrayExactly(names, e, n);
    case Map(k, e) =>
      ReadsBackExactly(names, k);
      ReadsBackExactly(names, e);
      MapExactly(names, k, e);
    case Enum(values) => EnumReadsBackExactly(names, values);
    case Sum(_) =>
  }

  lemma AppliedOne(names: set<string>, f: Former, inner: string)
    requires f == FOptional || f == FList
    ensures ParseApplied(names, FormerName(f), inner) ==
            if f == FList then XList(Parse(names, inner)) else XOptional(Parse(names, inner))
  {
    hide Parse;
    FormerOfName(f);
  }

  lemma OneExactly(names: set<string>, f: Former, e: FieldType)
    requires (f == FOptional || f == FList) && forall n | n in names :: '<' !in n
    requires Some(Parse(names, Print(e))) == Stands(e) <==> Readable(e)
    ensures var t := if f == FList then List(e) else Optional(e);
            Some(Parse(names, Print(t))) == Stands(t) <==> Readable(t)
  {
    hide Parse, ParseApplied, Wrap, FormerName, Scan;
    WrappedHead(names, f, Print(e));
    AppliedOne(names, f, Print(e));
    if Readable(e) { ReadableLine(e); }
  }

  lemma AppliedSize(names: set<string>, elem: string, n: int)
    ensures ParseApplied(names, FormerName(FArray), elem + "," + IntText(n)) ==
            XArray(Parse(names, elem), Atoi(IntText(n)))
    ensures Atoi(IntText(n)) == if -0x8000_0000_0000_0000 <= n < 0x8000_0000_0000_0000 then Some(n) else None
  {
    ParseSignedOfText(n);
    FormerOfName(FArray);
    hide Parse, Trim, ParseSigned;
    ArraySplit(elem, n);
  }

  lemma ArrayExactly(names: set<string>, e: FieldType, n: int)
    requires forall m | m in names :: '<' !in m
    requires Some(Parse(names, Print(e))) == Stands(e) <==> Readable(e)
    ensures Some(Parse(names, Print(Array(e, n)))) == Stands(Array(e, n)) <==> Readable(Array(e, n))
  {
    hide Parse, ParseApplied, Wrap, FormerName, Scan, Atoi, IntText;
    WrappedHead(names, FArray, Print(e) + "," + IntText(n));
    AppliedSize(names, Print(e), n);
    IntTextTrimmed(n);
    if Readable(e) {
      ReadableLine(e);
      OneLine(Print(e), IntText(n));
    }
  }
}
